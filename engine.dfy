/** `Engine`'s game state: whether the game is being edited, played or is
    paused, and how `Update` and `EndDraw` gate the game logic on it. */
module Engines {
  import opened EngineLogging
  import opened SceneManagers
  import opened InputManagers

  datatype GameState = EDIT_MODE | PLAY_MODE | PAUSED_MODE

  /** `ShouldRunGameLogic`: only while playing. */
  predicate RunsGameLogic(state: GameState)
  {
    state == PLAY_MODE
  }

  /** The three mode queries are exclusive and one of them always holds, and
      the game logic runs exactly in play mode. */
  lemma ExactlyOneMode(engine: Engine)
    ensures engine.IsEditMode() || engine.IsPlayMode() || engine.IsPaused()
    ensures !(engine.IsEditMode() && engine.IsPlayMode())
    ensures !(engine.IsEditMode() && engine.IsPaused())
    ensures !(engine.IsPlayMode() && engine.IsPaused())
    ensures engine.ShouldRunGameLogic() <==> !engine.IsEditMode() && !engine.IsPaused()
  {
  }

  /** The engine's static `currentGameState`. */
  class Engine {
    var currentGameState: GameState

    constructor ()
      ensures currentGameState == EDIT_MODE
    {
      currentGameState := EDIT_MODE;
    }

    /** The game-state part of `Initialize`: logging must start, and then the
        engine enters play mode. */
    method Initialize(logging: LoggingSystem, setupThrows: bool, now: real) returns (ok: bool)
      requires logging.Valid()
      modifies this, logging, logging.guiLogQueue
      ensures logging.Valid()
      ensures ok ==> currentGameState == PLAY_MODE
      ensures !ok ==> currentGameState == old(currentGameState)
      ensures ok <==> old(logging.initialized) || !setupThrows
    {
      ok := logging.Initialize(setupThrows, now);
      if !ok {
        return false;
      }
      SetGameState(PLAY_MODE);
    }

    method SetGameState(state: GameState)
      modifies this
      ensures currentGameState == state
    {
      currentGameState := state;
    }

    function GetGameState(): (state: GameState)
      reads this
      ensures state == currentGameState
    {
      currentGameState
    }

    function ShouldRunGameLogic(): (b: bool)
      reads this
      ensures b <==> RunsGameLogic(currentGameState)
      ensures b <==> IsPlayMode()
    {
      currentGameState == PLAY_MODE
    }

    function IsEditMode(): (b: bool)
      reads this
      ensures b <==> currentGameState == EDIT_MODE
    {
      currentGameState == EDIT_MODE
    }

    function IsPlayMode(): (b: bool)
      reads this
      ensures b <==> currentGameState == PLAY_MODE
    {
      currentGameState == PLAY_MODE
    }

    function IsPaused(): (b: bool)
      reads this
      ensures b <==> currentGameState == PAUSED_MODE
    {
      currentGameState == PAUSED_MODE
    }

    /** Advances the scene by `dt` only while the game logic runs. */
    method Update<V>(scene: SceneManager<V>, dt: real)
      requires scene.Valid()
      modifies scene
      ensures scene.Valid()
      ensures scene.currentScene == old(scene.currentScene) && scene.currentScenePath == old(scene.currentScenePath)
      ensures scene.events == old(scene.events) +
        (if RunsGameLogic(currentGameState) && scene.currentScene.Some? then [Updated(scene.currentScenePath, dt)] else [])
    {
      if ShouldRunGameLogic() {
        scene.UpdateScene(dt);
      }
    }

    /** Takes the input snapshot for the next frame only while the game logic
        runs; polling window events is outside the model. */
    method EndDraw(input: InputManager)
      modifies input
      ensures RunsGameLogic(currentGameState) ==>
        && input.prevKeyStates == input.keyStates && input.prevMouseButtonStates == input.mouseButtonStates
      ensures input.keyStates == old(input.keyStates) && input.mouseButtonStates == old(input.mouseButtonStates)
      ensures !RunsGameLogic(currentGameState) ==>
        input.prevKeyStates == old(input.prevKeyStates) && input.prevMouseButtonStates == old(input.prevMouseButtonStates)
    {
      if ShouldRunGameLogic() {
        input.Update();
      }
    }
  }
}
