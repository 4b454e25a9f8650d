/** `Material` (`Material.cpp`): Phong colours, clamped scalar properties,
    and a table of texture entries keyed by `TextureType`. The entries are
    `TextureInfo` records, whose declaration is not part of this model; all
    the material uses of one is the texture it binds. Shader uniform writes
    and texture binds are returned as a list of effects. */
module Materials {
  import opened Wrappers
  import opened Glm

  datatype TextureType = Diffuse | Specular | Normal | Height | AmbientOcclusion | Metallic | Roughness | Emissive

  datatype TextureInfo = TextureInfo(texture: Handle)

  /** One effect on the shader: a uniform set, or a texture bound to a unit.
      `SetSampler(t, i)` is the int uniform `SamplerUniform(t)` set to `i`. */
  datatype Effect =
    | SetVec3(uniform: string, v: Vec3)
    | SetFloat(uniform: string, f: real)
    | SetBool(uniform: string, b: bool)
    | SetSampler(sampler: TextureType, i: nat)
    | BindTexture(texture: Handle, unit: nat)

  /** The number of texture units `BindTextures` hands out. */
  const MAX_TEXTURE_UNITS: nat := 16

  const DEFAULT_NAME: string := "DefaultMaterial"

  /** `glm::clamp(v, lo, hi)`. */
  function Clamp(v: real, lo: real, hi: real): (r: real)
    requires lo <= hi
    ensures lo <= r <= hi
    ensures lo <= v <= hi ==> r == v
    ensures v < lo ==> r == lo
    ensures v > hi ==> r == hi
  {
    if v < lo then lo else if v > hi then hi else v
  }

  /** Clamping twice is clamping once. */
  lemma ClampIdempotent(v: real, lo: real, hi: real)
    requires lo <= hi
    ensures Clamp(Clamp(v, lo, hi), lo, hi) == Clamp(v, lo, hi)
  {
  }

  /** The uniform suffix of each texture type. */
  function TextureTypeToString(t: TextureType): (r: string)
    ensures |r| > 3 && r[|r| - 3..] == "Map"
  {
    match t
    case Diffuse => "diffuseMap"
    case Specular => "specularMap"
    case Normal => "normalMap"
    case Height => "heightMap"
    case AmbientOcclusion => "aoMap"
    case Metallic => "metallicMap"
    case Roughness => "roughnessMap"
    case Emissive => "emissiveMap"
  }

  /** The texture type a uniform suffix names, the inverse of
      `TextureTypeToString`. */
  function TextureTypeNamed(s: string): (r: Option<TextureType>)
    ensures r.Some? ==> TextureTypeToString(r.value) == s
  {
    if s == "diffuseMap" then Some(Diffuse)
    else if s == "specularMap" then Some(Specular)
    else if s == "normalMap" then Some(Normal)
    else if s == "heightMap" then Some(Height)
    else if s == "aoMap" then Some(AmbientOcclusion)
    else if s == "metallicMap" then Some(Metallic)
    else if s == "roughnessMap" then Some(Roughness)
    else if s == "emissiveMap" then Some(Emissive)
    else None
  }

  /** Every type's name leads back to it, so the eight names are distinct. */
  lemma TextureTypeNamesDistinct(t: TextureType, u: TextureType)
    ensures TextureTypeNamed(TextureTypeToString(t)) == Some(t)
    ensures t != u ==> TextureTypeToString(t) != TextureTypeToString(u)
  {
    var n := TextureTypeToString(t);
    match t
    case Diffuse =>
    case Specular => assert n != "diffuseMap";
    case Normal => assert n != "diffuseMap" && n != "specularMap";
    case Height => assert n != "diffuseMap" && n != "specularMap" && n != "normalMap";
    case AmbientOcclusion =>
    case Metallic => assert n != "diffuseMap" && n != "specularMap" && n != "normalMap" && n != "heightMap";
    case Roughness => assert n != "diffuseMap" && n != "specularMap" && n != "normalMap" && n != "heightMap";
    case Emissive => assert n != "diffuseMap" && n != "specularMap" && n != "normalMap" && n != "heightMap";
  }

  /** The order the loop over the texture table visits its entries: each key
      exactly once. `std::unordered_map` does not fix it. */
  ghost predicate IsIterationOrder(order: seq<TextureType>, keys: set<TextureType>)
  {
    (forall i, j :: 0 <= i < j < |order| ==> order[i] != order[j])
    && (forall t :: t in keys <==> t in order)
  }

  /** The binds the loop of `BindTextures` makes from unit `unit` on, over the
      rest of the iteration order: each entry takes the next unit while fewer
      than 16 are used. */
  function Bindings(textures: map<TextureType, TextureInfo>, order: seq<TextureType>, unit: nat): (r: seq<Effect>)
    decreases |order|
  {
    if order == [] then []
    else if order[0] in textures && unit < MAX_TEXTURE_UNITS then
      BindStep(textures[order[0]], order[0], unit) + Bindings(textures, order[1..], unit + 1)
    else Bindings(textures, order[1..], unit)
  }

  /** `Bind(unit)` on the entry's texture and the unit stored in the
      `material.<type>` sampler uniform. */
  function BindStep(info: TextureInfo, t: TextureType, unit: nat): seq<Effect>
  {
    [BindTexture(info.texture, unit), SetSampler(t, unit)]
  }

  /** The int uniform a `SetSampler(t, _)` effect sets: `material.` and the
      type's suffix. */
  function SamplerUniform(t: TextureType): string
  {
    "material." + TextureTypeToString(t)
  }

  /** When the units suffice, every entry of the iteration order is bound:
      two effects each. */
  lemma {:induction false} BindingsLength(textures: map<TextureType, TextureInfo>, order: seq<TextureType>, unit: nat)
    requires forall i :: 0 <= i < |order| ==> order[i] in textures
    requires unit + |order| <= MAX_TEXTURE_UNITS
    ensures |Bindings(textures, order, unit)| == 2 * |order|
    decreases |order|
  {
    if order != [] {
      assert order[0] in textures;
      BindingsLength(textures, order[1..], unit + 1);
    }
  }

  /** The `i`-th entry of the iteration order gets unit `unit + i`: its two
      effects sit at `2 * i`. */
  lemma {:induction false} BindingAt(textures: map<TextureType, TextureInfo>, order: seq<TextureType>, unit: nat, i: nat)
    requires forall k :: 0 <= k < |order| ==> order[k] in textures
    requires unit + |order| <= MAX_TEXTURE_UNITS && i < |order|
    ensures |Bindings(textures, order, unit)| == 2 * |order|
    ensures Bindings(textures, order, unit)[2 * i..2 * i + 2] == BindStep(textures[order[i]], order[i], unit + i)
    decreases i
  {
    BindingsLength(textures, order, unit);
    BindingsFirst(textures, order, unit);
    if i > 0 {
      BindingAt(textures, order[1..], unit + 1, i - 1);
      var t := order[1..][i - 1];
      assert t == order[i];
      PairAfterPair(BindStep(textures[order[0]], order[0], unit), Bindings(textures, order[1..], unit + 1), i,
                    BindStep(textures[t], t, unit + 1 + (i - 1)));
    }
  }

  /** The binds of an order whose first entry is in the table and gets a
      unit: that entry's pair, then the binds of the rest. */
  lemma BindingsFirst(textures: map<TextureType, TextureInfo>, order: seq<TextureType>, unit: nat)
    requires order != [] && order[0] in textures && unit < MAX_TEXTURE_UNITS
    ensures Bindings(textures, order, unit) ==
            BindStep(textures[order[0]], order[0], unit) + Bindings(textures, order[1..], unit + 1)
    ensures Bindings(textures, order, unit)[0..2] == BindStep(textures[order[0]], order[0], unit)
  {
    var first := BindStep(textures[order[0]], order[0], unit);
    assert (first + Bindings(textures, order[1..], unit + 1))[0..2] == first;
  }

  /** The pair at `2 * i >= 2` of `a + b`, `a` being a pair, is the pair at
      `2 * (i - 1)` of `b`. */
  lemma PairAfterPair<X>(a: seq<X>, b: seq<X>, i: nat, pair: seq<X>)
    requires |a| == 2 && 1 <= i && 2 * i + 2 <= |a| + |b|
    requires b[2 * (i - 1)..2 * (i - 1) + 2] == pair
    ensures (a + b)[2 * i..2 * i + 2] == pair
  {
    assert (a + b)[2 * i..2 * i + 2] == b[2 * (i - 1)..2 * (i - 1) + 2];
  }

  /** Every unit in a bind effect is below 16. */
  lemma {:induction false} BindingsBelowLimit(textures: map<TextureType, TextureInfo>, order: seq<TextureType>, unit: nat)
    ensures forall e :: e in Bindings(textures, order, unit) && (e.BindTexture? || e.SetSampler?) ==>
      (if e.BindTexture? then e.unit else e.i) < MAX_TEXTURE_UNITS
    decreases |order|
  {
    if order != [] {
      if order[0] in textures && unit < MAX_TEXTURE_UNITS {
        BindingsBelowLimit(textures, order[1..], unit + 1);
      } else {
        BindingsBelowLimit(textures, order[1..], unit);
      }
    }
  }

  /** A sequence without repeats of the eight texture types has at most eight
      entries, so the table never needs more than 8 of the 16 units. */
  lemma DistinctTypesAtMostEight(order: seq<TextureType>)
    requires forall i, j :: 0 <= i < j < |order| ==> order[i] != order[j]
    ensures |order| <= 8
  {
    var all := {Diffuse, Specular, Normal, Height, AmbientOcclusion, Metallic, Roughness, Emissive};
    DistinctCard(order);
    var present := set t | t in order;
    assert present <= all;
    SubsetCard(present, all);
  }

  lemma {:induction false} DistinctCard<X>(s: seq<X>)
    requires forall i, j :: 0 <= i < j < |s| ==> s[i] != s[j]
    ensures |set x | x in s| == |s|
  {
    if s != [] {
      DistinctCard(s[1..]);
      assert (set x | x in s) == {s[0]} + (set x | x in s[1..]);
      assert s[0] !in s[1..];
    }
  }

  lemma {:induction false} SubsetCard<X>(a: set<X>, b: set<X>)
    requires a <= b
    ensures |a| <= |b|
    decreases |b|
  {
    if a != {} {
      var x :| x in a;
      SubsetCard(a - {x}, b - {x});
    }
  }

  /** `Material`. */
  class Material {
    var name: string
    var ambient: Vec3
    var diffuse: Vec3
    var specular: Vec3
    var emissive: Vec3
    var shininess: real
    var opacity: real
    var metallic: real
    var roughness: real
    var ao: real
    var textureInfo: map<TextureType, TextureInfo>

    /** `Material(name)`, with the member initialisers of the header; the
        default constructor passes "DefaultMaterial". */
    constructor(name: string)
      ensures this.name == name && textureInfo == map[]
      ensures ambient == Splat(0.2) && diffuse == Splat(0.8) && specular == Splat(1.0) && emissive == Splat(0.0)
      ensures shininess == 32.0 && opacity == 1.0 && metallic == 0.0 && roughness == 0.5 && ao == 1.0
    {
      this.name := name;
      ambient := Splat(0.2);
      diffuse := Splat(0.8);
      specular := Splat(1.0);
      emissive := Splat(0.0);
      shininess := 32.0;
      opacity := 1.0;
      metallic := 0.0;
      roughness := 0.5;
      ao := 1.0;
      textureInfo := map[];
    }

    /** The scalar properties stay in their ranges under every setter. */
    ghost predicate InRange()
      reads this
    {
      1.0 <= shininess <= 256.0 && 0.0 <= opacity <= 1.0 && 0.0 <= metallic <= 1.0
      && 0.0 <= roughness <= 1.0 && 0.0 <= ao <= 1.0
    }

    method SetShininess(value: real)
      modifies this
      requires InRange()
      ensures InRange()
      ensures shininess == Clamp(value, 1.0, 256.0)
      ensures opacity == old(opacity) && metallic == old(metallic) && roughness == old(roughness) && ao == old(ao)
      ensures name == old(name) && textureInfo == old(textureInfo)
      ensures ambient == old(ambient) && diffuse == old(diffuse) && specular == old(specular) && emissive == old(emissive)
    {
      shininess := Clamp(value, 1.0, 256.0);
    }

    method SetOpacity(value: real)
      modifies this
      requires InRange()
      ensures InRange()
      ensures opacity == Clamp(value, 0.0, 1.0)
      ensures shininess == old(shininess) && metallic == old(metallic) && roughness == old(roughness) && ao == old(ao)
      ensures name == old(name) && textureInfo == old(textureInfo)
      ensures ambient == old(ambient) && diffuse == old(diffuse) && specular == old(specular) && emissive == old(emissive)
    {
      opacity := Clamp(value, 0.0, 1.0);
    }

    method SetMetallic(value: real)
      modifies this
      requires InRange()
      ensures InRange()
      ensures metallic == Clamp(value, 0.0, 1.0)
      ensures shininess == old(shininess) && opacity == old(opacity) && roughness == old(roughness) && ao == old(ao)
      ensures name == old(name) && textureInfo == old(textureInfo)
      ensures ambient == old(ambient) && diffuse == old(diffuse) && specular == old(specular) && emissive == old(emissive)
    {
      metallic := Clamp(value, 0.0, 1.0);
    }

    method SetRoughness(value: real)
      modifies this
      requires InRange()
      ensures InRange()
      ensures roughness == Clamp(value, 0.0, 1.0)
      ensures shininess == old(shininess) && opacity == old(opacity) && metallic == old(metallic) && ao == old(ao)
      ensures name == old(name) && textureInfo == old(textureInfo)
      ensures ambient == old(ambient) && diffuse == old(diffuse) && specular == old(specular) && emissive == old(emissive)
    {
      roughness := Clamp(value, 0.0, 1.0);
    }

    method SetAO(value: real)
      modifies this
      requires InRange()
      ensures InRange()
      ensures ao == Clamp(value, 0.0, 1.0)
      ensures shininess == old(shininess) && opacity == old(opacity) && metallic == old(metallic) && roughness == old(roughness)
      ensures name == old(name) && textureInfo == old(textureInfo)
      ensures ambient == old(ambient) && diffuse == old(diffuse) && specular == old(specular) && emissive == old(emissive)
    {
      ao := Clamp(value, 0.0, 1.0);
    }

    /** `SetAmbient`, `SetDiffuse`, `SetSpecular`, `SetEmissive` store the
        colour as given. */
    method SetColors(ambient: Vec3, diffuse: Vec3, specular: Vec3, emissive: Vec3)
      modifies this
      ensures this.ambient == ambient && this.diffuse == diffuse
      ensures this.specular == specular && this.emissive == emissive
      ensures shininess == old(shininess) && opacity == old(opacity) && metallic == old(metallic)
      ensures roughness == old(roughness) && ao == old(ao)
      ensures name == old(name) && textureInfo == old(textureInfo)
    {
      this.ambient := ambient;
      this.diffuse := diffuse;
      this.specular := specular;
      this.emissive := emissive;
    }

    /** `SetTexture`: a null entry is ignored; otherwise that type's entry is
        stored or replaced. */
    method SetTexture(t: TextureType, info: Option<TextureInfo>)
      modifies this
      ensures info.None? ==> textureInfo == old(textureInfo)
      ensures info.Some? ==> textureInfo == old(textureInfo)[t := info.value] && HasTexture(t)
      ensures name == old(name) && shininess == old(shininess) && opacity == old(opacity)
      ensures metallic == old(metallic) && roughness == old(roughness) && ao == old(ao)
      ensures ambient == old(ambient) && diffuse == old(diffuse) && specular == old(specular) && emissive == old(emissive)
    {
      if info.Some? {
        textureInfo := textureInfo[t := info.value];
      }
    }

    /** `HasTexture`. */
    predicate HasTexture(t: TextureType): (b: bool)
      reads this
      ensures b <==> GetTextureInfo(t).Some?
    {
      t in textureInfo
    }

    /** `GetTextureInfo`: the entry, or empty when there is none. */
    function GetTextureInfo(t: TextureType): (r: Option<TextureInfo>)
      reads this
      ensures r.Some? <==> t in textureInfo
      ensures r.Some? ==> r.value == textureInfo[t]
    {
      if t in textureInfo then Some(textureInfo[t]) else None
    }

    /** `RemoveTexture`: `erase`, a no-op for an absent type. */
    method RemoveTexture(t: TextureType)
      modifies this
      ensures textureInfo == old(textureInfo) - {t}
      ensures !HasTexture(t)
      ensures name == old(name) && shininess == old(shininess) && opacity == old(opacity)
      ensures metallic == old(metallic) && roughness == old(roughness) && ao == old(ao)
      ensures ambient == old(ambient) && diffuse == old(diffuse) && specular == old(specular) && emissive == old(emissive)
    {
      textureInfo := textureInfo - {t};
    }

    method SetName(name: string)
      modifies this
      ensures this.name == name && textureInfo == old(textureInfo)
      ensures shininess == old(shininess) && opacity == old(opacity)
      ensures metallic == old(metallic) && roughness == old(roughness) && ao == old(ao)
      ensures ambient == old(ambient) && diffuse == old(diffuse) && specular == old(specular) && emissive == old(emissive)
    {
      this.name := name;
    }

    /** `BindTextures`: the four availability flags, then the loop over the
        table in its iteration order. */
    method BindTextures(order: seq<TextureType>) returns (effects: seq<Effect>)
      ensures effects == AvailabilityFlags() + Bindings(textureInfo, order, 0)
    {
      var flags := AvailabilityFlags();
      var binds := BindLoop(textureInfo, order);
      effects := flags + binds;
    }

    /** The loop of `BindTextures`, with its unit counter. */
    static method BindLoop(textures: map<TextureType, TextureInfo>, order: seq<TextureType>) returns (effects: seq<Effect>)
      ensures effects == Bindings(textures, order, 0)
    {
      effects := [];
      ghost var target := Bindings(textures, order, 0);
      var unit: nat := 0;
      var i := 0;
      while i < |order|
        invariant 0 <= i <= |order|
        invariant effects + Bindings(textures, order[i..], unit) == target
      {
        var rest := order[i..];
        assert rest[1..] == order[i + 1..];
        var t := order[i];
        if t in textures && unit < MAX_TEXTURE_UNITS {
          var step := BindStep(textures[t], t, unit);
          assert Bindings(textures, rest, unit) == step + Bindings(textures, order[i + 1..], unit + 1);
          assert (effects + step) + Bindings(textures, order[i + 1..], unit + 1)
              == effects + (step + Bindings(textures, order[i + 1..], unit + 1));
          effects := effects + step;
          unit := unit + 1;
        } else {
          assert Bindings(textures, rest, unit) == Bindings(textures, order[i + 1..], unit);
        }
        i := i + 1;
      }
    }

    /** The `material.has...Map` flags. */
    function AvailabilityFlags(): (r: seq<Effect>)
      reads this
      ensures |r| == 4
    {
      [SetBool("material.hasDiffuseMap", HasTexture(Diffuse)),
       SetBool("material.hasSpecularMap", HasTexture(Specular)),
       SetBool("material.hasNormalMap", HasTexture(Normal)),
       SetBool("material.hasEmissiveMap", HasTexture(Emissive))]
    }

    /** `ApplyToShader`: the colours, shininess and opacity (the PBR values
        are not sent), then `BindTextures`. */
    method ApplyToShader(order: seq<TextureType>) returns (effects: seq<Effect>)
      requires IsIterationOrder(order, textureInfo.Keys)
      ensures effects == [SetVec3("material.ambient", ambient), SetVec3("material.diffuse", diffuse),
                          SetVec3("material.specular", specular), SetVec3("material.emissive", emissive),
                          SetFloat("material.shininess", shininess), SetFloat("material.opacity", opacity)]
                         + AvailabilityFlags() + Bindings(textureInfo, order, 0)
    {
      var binds := BindTextures(order);
      effects := [SetVec3("material.ambient", ambient), SetVec3("material.diffuse", diffuse),
                  SetVec3("material.specular", specular), SetVec3("material.emissive", emissive),
                  SetFloat("material.shininess", shininess), SetFloat("material.opacity", opacity)] + binds;
    }
  }

  /** Every entry of the table is bound, each to its own unit below 16, in
      the iteration order. */
  lemma AllTexturesBound(m: Material, order: seq<TextureType>, i: nat)
    requires IsIterationOrder(order, m.textureInfo.Keys) && i < |order|
    ensures |order| <= 8
    ensures |Bindings(m.textureInfo, order, 0)| == 2 * |order|
    ensures Bindings(m.textureInfo, order, 0)[2 * i..2 * i + 2] == BindStep(m.textureInfo[order[i]], order[i], i)
  {
    DistinctTypesAtMostEight(order);
    forall k | 0 <= k < |order| ensures order[k] in m.textureInfo {
      assert order[k] in order;
    }
    BindingAt(m.textureInfo, order, 0, i);
  }

  /** `CreateDefault`. */
  method CreateDefault() returns (m: Material)
    ensures fresh(m) && m.name == DEFAULT_NAME && m.shininess == 32.0
    ensures m.ambient == Splat(0.2) && m.diffuse == Splat(0.8) && m.specular == Splat(1.0)
    ensures m.InRange() && m.textureInfo == map[]
  {
    m := new Material(DEFAULT_NAME);
    m.SetColors(Vec3(0.2, 0.2, 0.2), Vec3(0.8, 0.8, 0.8), Vec3(1.0, 1.0, 1.0), m.emissive);
    m.SetShininess(32.0);
  }

  /** `CreateMetal`. */
  method CreateMetal(color: Vec3) returns (m: Material)
    ensures fresh(m) && m.name == "MetalMaterial" && m.shininess == 128.0
    ensures m.ambient == Scale(color, 0.1) && m.diffuse == Scale(color, 0.3) && m.specular == Splat(1.0)
    ensures m.metallic == 1.0 && m.roughness == 0.1 && m.InRange()
  {
    m := new Material("MetalMaterial");
    m.SetColors(Scale(color, 0.1), Scale(color, 0.3), Vec3(1.0, 1.0, 1.0), m.emissive);
    m.SetShininess(128.0);
    m.SetMetallic(1.0);
    m.SetRoughness(0.1);
  }

  /** `CreatePlastic`. */
  method CreatePlastic(color: Vec3) returns (m: Material)
    ensures fresh(m) && m.name == "PlasticMaterial" && m.shininess == 32.0
    ensures m.ambient == Scale(color, 0.2) && m.diffuse == color && m.specular == Splat(0.5)
    ensures m.metallic == 0.0 && m.roughness == 0.5 && m.InRange()
  {
    m := new Material("PlasticMaterial");
    m.SetColors(Scale(color, 0.2), color, Vec3(0.5, 0.5, 0.5), m.emissive);
    m.SetShininess(32.0);
    m.SetMetallic(0.0);
    m.SetRoughness(0.5);
  }

  /** `CreateWood`. */
  method CreateWood() returns (m: Material)
    ensures fresh(m) && m.name == "WoodMaterial" && m.shininess == 8.0
    ensures m.ambient == Scale(Vec3(0.6, 0.4, 0.2), 0.3) && m.diffuse == Vec3(0.6, 0.4, 0.2) && m.specular == Splat(0.1)
    ensures m.metallic == 0.0 && m.roughness == 0.8 && m.InRange()
  {
    m := new Material("WoodMaterial");
    var wood := Vec3(0.6, 0.4, 0.2);
    m.SetColors(Scale(wood, 0.3), wood, Vec3(0.1, 0.1, 0.1), m.emissive);
    m.SetShininess(8.0);
    m.SetMetallic(0.0);
    m.SetRoughness(0.8);
  }
}
