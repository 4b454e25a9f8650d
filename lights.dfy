/** `LightManager`: one directional light, a list of point lights and one
    spotlight with an enabled flag. `glm::normalize` and the cosine of an
    angle in degrees, used only by the five-argument `setSpotLight`, are
    parameters. */
module Lights {
  import opened Glm

  datatype DirectionalLight = DirectionalLight(direction: Vec3, ambient: Vec3, diffuse: Vec3, specular: Vec3)

  datatype PointLight = PointLight(
    position: Vec3, ambient: Vec3, diffuse: Vec3, specular: Vec3,
    constant: real, linear: real, quadratic: real)

  datatype SpotLight = SpotLight(
    position: Vec3, direction: Vec3, ambient: Vec3, diffuse: Vec3, specular: Vec3,
    constant: real, linear: real, quadratic: real, cutOff: real, outerCutOff: real)

  /** The attenuation every light the manager builds gets. */
  const CONSTANT: real := 1.0
  const LINEAR: real := 0.09
  const QUADRATIC: real := 0.032

  /** The default member initialisers of the three structs. */
  const DEFAULT_DIRECTIONAL := DirectionalLight(Vec3(-0.2, -1.0, -0.3), Splat(0.05), Splat(0.4), Splat(0.5))
  const DEFAULT_SPOT := SpotLight(Splat(0.0), Vec3(0.0, 0.0, -1.0), Splat(0.0), Splat(1.0), Splat(1.0),
                                  CONSTANT, LINEAR, QUADRATIC, 0.976, 0.966)

  /** The default arguments of `addPointLight`'s intensity and of
      `setSpotLight`'s two cone angles, in degrees. */
  const DEFAULT_INTENSITY: real := 1.0
  const DEFAULT_INNER_CONE: real := 12.5
  const DEFAULT_OUTER_CONE: real := 15.0

  /** The light the colour overload of `addPointLight` builds. */
  function ColoredPointLight(position: Vec3, color: Vec3, intensity: real): (l: PointLight)
    ensures l.position == position && l.specular == color
    ensures l.ambient == Scale(color, 0.05) && l.diffuse == Scale(color, intensity)
    ensures l.constant == 1.0 && l.linear == 0.09 && l.quadratic == 0.032
  {
    PointLight(position, Scale(color, 0.05), Scale(color, intensity), color, CONSTANT, LINEAR, QUADRATIC)
  }

  /** The colour overload of `setDirectionalLight`: a fifth of the colour as
      ambient, the colour as diffuse and specular. */
  function ColoredDirectional(direction: Vec3, color: Vec3): (d: DirectionalLight)
    ensures d.direction == direction && d.ambient == Scale(color, 0.2)
    ensures d.diffuse == color && d.specular == color
  {
    DirectionalLight(direction, Scale(color, 0.2), color, color)
  }

  /** The spotlight the five-argument `setSpotLight` builds; the cone angles
      are in degrees. */
  function ConeSpot(position: Vec3, direction: Vec3, color: Vec3, innerCone: real, outerCone: real,
                    normalize: Vec3 -> Vec3, cosDegrees: real -> real): (s: SpotLight)
    ensures s.position == position && s.direction == normalize(direction)
    ensures s.ambient == Splat(0.0) && s.diffuse == color && s.specular == color
    ensures s.constant == CONSTANT && s.linear == LINEAR && s.quadratic == QUADRATIC
    ensures s.cutOff == cosDegrees(innerCone) && s.outerCutOff == cosDegrees(outerCone)
  {
    SpotLight(position, normalize(direction), Splat(0.0), color, color,
              CONSTANT, LINEAR, QUADRATIC, cosDegrees(innerCone), cosDegrees(outerCone))
  }

  /** `erase(begin() + index)` when the index is in range; otherwise the list
      is kept (the C++ logs an error). */
  function Removed(lights: seq<PointLight>, index: nat): (r: seq<PointLight>)
    ensures index < |lights| ==> |r| == |lights| - 1
    ensures index < |lights| ==> forall i :: 0 <= i < index ==> r[i] == lights[i]
    ensures index < |lights| ==> forall i :: index <= i < |r| ==> r[i] == lights[i + 1]
    ensures index >= |lights| ==> r == lights
  {
    if index < |lights| then lights[..index] + lights[index + 1..] else lights
  }

  /** Removing the light just added gives back the old list, and removing
      light `i` keeps every other light, in order. */
  lemma {:induction false} RemoveUndoesAdd(lights: seq<PointLight>, light: PointLight)
    ensures Removed(lights + [light], |lights|) == lights
  {
    assert (lights + [light])[..|lights|] == lights;
  }

  lemma RemovedKeepsOthers(lights: seq<PointLight>, index: nat)
    requires index < |lights|
    ensures multiset(Removed(lights, index)) + multiset{lights[index]} == multiset(lights)
  {
    assert lights == lights[..index] + [lights[index]] + lights[index + 1..];
  }

  class LightManager {
    var directionalLight: DirectionalLight
    var pointLights: seq<PointLight>
    var spotLight: SpotLight
    var spotLightEnabled: bool

    /** The default constructor: default lights, no point lights, the
        spotlight enabled. */
    constructor()
      ensures directionalLight == DEFAULT_DIRECTIONAL && pointLights == []
      ensures spotLight == DEFAULT_SPOT && spotLightEnabled
    {
      directionalLight := DEFAULT_DIRECTIONAL;
      pointLights := [];
      spotLight := DEFAULT_SPOT;
      spotLightEnabled := true;
    }

    /** The four-argument `setDirectionalLight`. */
    method SetDirectionalLight(direction: Vec3, ambient: Vec3, diffuse: Vec3, specular: Vec3)
      modifies this
      ensures directionalLight == DirectionalLight(direction, ambient, diffuse, specular)
      ensures pointLights == old(pointLights) && spotLight == old(spotLight)
      ensures spotLightEnabled == old(spotLightEnabled)
    {
      directionalLight := DirectionalLight(direction, ambient, diffuse, specular);
    }

    /** The colour overload, which delegates to the four-argument form. */
    method SetDirectionalLightColor(direction: Vec3, color: Vec3)
      modifies this
      ensures directionalLight == ColoredDirectional(direction, color)
      ensures pointLights == old(pointLights) && spotLight == old(spotLight)
      ensures spotLightEnabled == old(spotLightEnabled)
    {
      SetDirectionalLight(direction, Scale(color, 0.2), color, color);
    }

    /** The colour overload of `addPointLight`. */
    method AddPointLightColor(position: Vec3, color: Vec3, intensity: real)
      modifies this
      ensures pointLights == old(pointLights) + [ColoredPointLight(position, color, intensity)]
      ensures directionalLight == old(directionalLight) && spotLight == old(spotLight)
      ensures spotLightEnabled == old(spotLightEnabled)
    {
      pointLights := pointLights + [ColoredPointLight(position, color, intensity)];
    }

    /** The colour overload called without an intensity. */
    method AddPointLightDefault(position: Vec3, color: Vec3)
      modifies this
      ensures pointLights == old(pointLights) + [ColoredPointLight(position, color, DEFAULT_INTENSITY)]
      ensures pointLights[|pointLights| - 1].diffuse == color
      ensures directionalLight == old(directionalLight) && spotLight == old(spotLight)
      ensures spotLightEnabled == old(spotLightEnabled)
    {
      AddPointLightColor(position, color, DEFAULT_INTENSITY);
      assert Scale(color, 1.0) == color;
    }

    method AddPointLight(light: PointLight)
      modifies this
      ensures pointLights == old(pointLights) + [light]
      ensures directionalLight == old(directionalLight) && spotLight == old(spotLight)
      ensures spotLightEnabled == old(spotLightEnabled)
    {
      pointLights := pointLights + [light];
    }

    method RemovePointLight(index: nat)
      modifies this
      ensures pointLights == Removed(old(pointLights), index)
      ensures directionalLight == old(directionalLight) && spotLight == old(spotLight)
      ensures spotLightEnabled == old(spotLightEnabled)
    {
      if index < |pointLights| {
        pointLights := pointLights[..index] + pointLights[index + 1..];
      }
    }

    method ClearPointLights()
      modifies this
      ensures pointLights == []
      ensures directionalLight == old(directionalLight) && spotLight == old(spotLight)
      ensures spotLightEnabled == old(spotLightEnabled)
    {
      pointLights := [];
    }

    /** The five-argument `setSpotLight`; the enabled flag is kept. */
    method SetSpotLightCone(position: Vec3, direction: Vec3, color: Vec3, innerCone: real, outerCone: real,
                            normalize: Vec3 -> Vec3, cosDegrees: real -> real)
      modifies this
      ensures spotLight == ConeSpot(position, direction, color, innerCone, outerCone, normalize, cosDegrees)
      ensures pointLights == old(pointLights) && directionalLight == old(directionalLight)
      ensures spotLightEnabled == old(spotLightEnabled)
    {
      spotLight := ConeSpot(position, direction, color, innerCone, outerCone, normalize, cosDegrees);
    }

    /** The five-argument `setSpotLight` called without cone angles. */
    method SetSpotLightDefaultCone(position: Vec3, direction: Vec3, color: Vec3,
                                   normalize: Vec3 -> Vec3, cosDegrees: real -> real)
      modifies this
      ensures spotLight == ConeSpot(position, direction, color, DEFAULT_INNER_CONE, DEFAULT_OUTER_CONE, normalize, cosDegrees)
      ensures spotLight.cutOff == cosDegrees(12.5) && spotLight.outerCutOff == cosDegrees(15.0)
      ensures pointLights == old(pointLights) && directionalLight == old(directionalLight)
      ensures spotLightEnabled == old(spotLightEnabled)
    {
      SetSpotLightCone(position, direction, color, DEFAULT_INNER_CONE, DEFAULT_OUTER_CONE, normalize, cosDegrees);
    }

    /** `setSpotLight(SpotLight)`: the struct is replaced wholesale. */
    method SetSpotLight(light: SpotLight)
      modifies this
      ensures spotLight == light
      ensures pointLights == old(pointLights) && directionalLight == old(directionalLight)
      ensures spotLightEnabled == old(spotLightEnabled)
    {
      spotLight := light;
    }

    method EnableSpotLight(enable: bool)
      modifies this
      ensures spotLightEnabled == enable
      ensures pointLights == old(pointLights) && directionalLight == old(directionalLight)
      ensures spotLight == old(spotLight)
    {
      spotLightEnabled := enable;
    }

    /** `getPointLightCount`. */
    function PointLightCount(): (n: nat)
      reads this
      ensures n == |pointLights|
    {
      |pointLights|
    }

    /** `clearAllLights`: back to the state the constructor makes. */
    method ClearAllLights()
      modifies this
      ensures directionalLight == DEFAULT_DIRECTIONAL && pointLights == []
      ensures spotLight == DEFAULT_SPOT && spotLightEnabled
    {
      ClearPointLights();
      directionalLight := DEFAULT_DIRECTIONAL;
      spotLight := DEFAULT_SPOT;
      spotLightEnabled := true;
    }
  }
}
