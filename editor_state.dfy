/** `EditorState`: the editor's play/pause/stop controls, which keep no state
    of their own but read and write the engine's game state, and the entity
    selected in the editor. */
module EditorStates {
  import opened Wrappers
  import opened Engines

  /** The editor's view of the game state. */
  datatype State = EDIT_MODE | PLAY_MODE | PAUSED

  /** No entity selected: the largest 32-bit value. */
  const INVALID_ENTITY: nat := 0xFFFF_FFFF

  /** The editor state written to the engine by `SetState`. */
  function ToGameState(s: State): (g: GameState)
  {
    match s
    case EDIT_MODE => GameState.EDIT_MODE
    case PLAY_MODE => GameState.PLAY_MODE
    case PAUSED => PAUSED_MODE
  }

  /** The editor state `GetState` reads back from the engine. */
  function FromGameState(g: GameState): (s: State)
  {
    match g
    case EDIT_MODE => State.EDIT_MODE
    case PLAY_MODE => State.PLAY_MODE
    case PAUSED_MODE => PAUSED
  }

  /** The two mappings are inverse bijections. */
  lemma StatesCorrespond(s: State, g: GameState)
    ensures FromGameState(ToGameState(s)) == s
    ensures ToGameState(FromGameState(g)) == g
    ensures ToGameState(s) == g <==> FromGameState(g) == s
  {
  }

  function StateName(s: State): (name: string)
    ensures s == State.EDIT_MODE <==> name == "EDIT_MODE"
    ensures s == State.PLAY_MODE <==> name == "PLAY_MODE"
    ensures s == PAUSED <==> name == "PAUSED"
  {
    match s
    case EDIT_MODE => "EDIT_MODE"
    case PLAY_MODE => "PLAY_MODE"
    case PAUSED => "PAUSED"
  }

  /** The state after `Play`: editing and paused both go to play. */
  function AfterPlay(s: State): State
  {
    if s == State.EDIT_MODE || s == PAUSED then State.PLAY_MODE else s
  }

  /** The state after `Pause`: only play goes to paused. */
  function AfterPause(s: State): State
  {
    if s == State.PLAY_MODE then PAUSED else s
  }

  /** `Play` always ends in play mode; `Pause` pauses play mode and leaves the
      other two alone; pausing and playing again resumes; `Stop` after
      anything is edit mode, and pausing from edit mode does nothing. */
  lemma TransitionsBehave(s: State)
    ensures AfterPlay(s) == State.PLAY_MODE
    ensures AfterPause(s) == PAUSED <==> s == State.PLAY_MODE || s == PAUSED
    ensures AfterPause(s) == s <==> s != State.PLAY_MODE
    ensures AfterPlay(AfterPause(s)) == State.PLAY_MODE
    ensures AfterPause(AfterPlay(s)) == PAUSED
    ensures s == State.EDIT_MODE ==> AfterPause(s) == State.EDIT_MODE
  {
  }

  /** The state-change line printed by `SetState`. */
  function ChangeMessage(oldState: State, newState: State): string
  {
    "[EditorState] State changed from " + StateName(oldState) + " to " + StateName(newState)
  }

  class EditorState {
    const engine: Engine
    var selectedEntity: nat

    constructor (engine: Engine)
      ensures this.engine == engine && selectedEntity == INVALID_ENTITY
    {
      this.engine := engine;
      selectedEntity := INVALID_ENTITY;
    }

    function GetState(): (s: State)
      reads engine
      ensures ToGameState(s) == engine.currentGameState
    {
      FromGameState(engine.GetGameState())
    }

    /** The convenience queries; each holds exactly when the engine is in
        the matching game state, and game logic runs only in play mode. */
    function IsEditMode(): (b: bool)
      reads engine
      ensures b <==> engine.currentGameState == GameState.EDIT_MODE
    {
      GetState() == State.EDIT_MODE
    }

    function IsPlayMode(): (b: bool)
      reads engine
      ensures b <==> engine.currentGameState == GameState.PLAY_MODE
    {
      GetState() == State.PLAY_MODE
    }

    function IsPaused(): (b: bool)
      reads engine
      ensures b <==> engine.currentGameState == PAUSED_MODE
    {
      GetState() == PAUSED
    }

    function ShouldRunGameLogic(): (b: bool)
      reads engine
      ensures b <==> IsPlayMode()
      ensures b ==> !IsEditMode() && !IsPaused()
    {
      GetState() == State.PLAY_MODE
    }

    /** Writes through to the engine only when the state changes, and then
        returns the line it prints. */
    method SetState(newState: State) returns (logged: Option<string>)
      modifies engine
      ensures GetState() == newState
      ensures old(GetState()) == newState <==> logged.None?
      ensures old(GetState()) == newState ==> engine.currentGameState == old(engine.currentGameState)
      ensures logged.Some? ==> logged.value == ChangeMessage(old(GetState()), newState)
    {
      var oldState := GetState();
      if oldState != newState {
        engine.SetGameState(ToGameState(newState));
        StatesCorrespond(newState, engine.currentGameState);
        return Some(ChangeMessage(oldState, newState));
      }
      return None;
    }

    method Play()
      modifies engine
      ensures GetState() == AfterPlay(old(GetState()))
    {
      var currentState := GetState();
      if currentState == State.EDIT_MODE {
        var _ := SetState(State.PLAY_MODE);
      } else if currentState == PAUSED {
        var _ := SetState(State.PLAY_MODE);
      }
    }

    method Pause()
      modifies engine
      ensures GetState() == AfterPause(old(GetState()))
    {
      if GetState() == State.PLAY_MODE {
        var _ := SetState(PAUSED);
      }
    }

    method Stop()
      modifies engine
      ensures GetState() == State.EDIT_MODE
    {
      var _ := SetState(State.EDIT_MODE);
    }

    /** Stores the entity; reports whether it differed, when a line is printed. */
    method SetSelectedEntity(entity: nat) returns (logged: bool)
      modifies this
      ensures selectedEntity == entity
      ensures logged <==> old(selectedEntity) != entity
    {
      logged := selectedEntity != entity;
      if logged {
        selectedEntity := entity;
      }
    }

    /** Forgets the selection; reports whether there was one. */
    method ClearSelection() returns (logged: bool)
      modifies this
      ensures selectedEntity == INVALID_ENTITY && !HasSelectedEntity()
      ensures logged <==> old(selectedEntity) != INVALID_ENTITY
    {
      logged := selectedEntity != INVALID_ENTITY;
      if logged {
        selectedEntity := INVALID_ENTITY;
      }
    }

    function GetSelectedEntity(): (e: nat)
      reads this
      ensures e == selectedEntity
    {
      selectedEntity
    }

    function HasSelectedEntity(): (b: bool)
      reads this
      ensures b <==> selectedEntity != INVALID_ENTITY
    {
      selectedEntity != INVALID_ENTITY
    }
  }
}
