/** `SystemManager`: the registered systems, keyed by the system's type name,
    and the component signature each system requires. A system's `entities`
    set is held here under the system's name. */
module SystemManagers {
  import opened EcsTypes

  class SystemManager {
    var signatures: map<string, Signature>
    /** Each registered system's `entities` set. */
    var systems: map<string, set<Entity>>

    /** Signatures are only ever stored for registered systems. */
    ghost predicate Valid()
      reads this
    {
      signatures.Keys <= systems.Keys
    }

    constructor ()
      ensures Valid() && signatures == map[] && systems == map[]
    {
      signatures := map[];
      systems := map[];
    }

    method RegisterSystem(typeName: string)
      requires Valid()
      requires typeName !in systems
      modifies this
      ensures Valid()
      ensures systems == old(systems)[typeName := {}]
      ensures signatures == old(signatures)
    {
      systems := systems[typeName := {}];
    }

    method SetSignature(typeName: string, signature: Signature)
      requires Valid()
      requires typeName in systems
      modifies this
      ensures Valid()
      ensures signatures == old(signatures)[typeName := signature]
      ensures systems == old(systems)
    {
      signatures := signatures[typeName := signature];
    }

    method EntityDestroyed(entity: Entity)
      requires Valid()
      modifies this
      ensures Valid()
      ensures signatures == old(signatures)
      ensures systems.Keys == old(systems).Keys
      ensures forall n :: n in systems ==> systems[n] == old(systems)[n] - {entity}
    {
      var remaining := systems.Keys;
      while remaining != {}
        invariant Valid() && signatures == old(signatures)
        invariant systems.Keys == old(systems).Keys && remaining <= systems.Keys
        invariant forall n :: n in systems ==>
          systems[n] == if n in remaining then old(systems)[n] else old(systems)[n] - {entity}
        decreases remaining
      {
        var n :| n in remaining;
        systems := systems[n := systems[n] - {entity}];
        remaining := remaining - {n};
      }
    }

    method AllEntitiesDestroyed()
      requires Valid()
      modifies this
      ensures Valid()
      ensures signatures == old(signatures)
      ensures systems.Keys == old(systems).Keys
      ensures forall n :: n in systems ==> systems[n] == {}
    {
      var remaining := systems.Keys;
      while remaining != {}
        invariant Valid() && signatures == old(signatures)
        invariant systems.Keys == old(systems).Keys && remaining <= systems.Keys
        invariant forall n :: n in systems ==>
          systems[n] == if n in remaining then old(systems)[n] else {}
        decreases remaining
      {
        var n :| n in remaining;
        systems := systems[n := {}];
        remaining := remaining - {n};
      }
    }

    /** Puts the entity into exactly the systems whose signature it has every bit of,
        and takes it out of all the others. */
    method OnEntitySignatureChanged(entity: Entity, entitySignature: Signature)
      requires Valid()
      modifies this
      ensures Valid()
      ensures systems.Keys == old(systems).Keys
      ensures signatures.Keys == systems.Keys
      ensures forall n :: n in signatures ==> signatures[n] == SignatureIn(old(signatures), n)
      ensures forall n :: n in systems ==>
        systems[n] == Refiled(old(systems)[n], SignatureIn(old(signatures), n), entity, entitySignature)
    {
      var newSignatures := signatures;
      var newSystems := systems;
      var remaining := systems.Keys;
      while remaining != {}
        invariant newSystems.Keys == systems.Keys && remaining <= systems.Keys
        invariant newSignatures.Keys == signatures.Keys + (systems.Keys - remaining)
        invariant forall n :: n in newSignatures ==> newSignatures[n] == SignatureIn(signatures, n)
        invariant forall n :: n in remaining ==> newSystems[n] == systems[n]
        invariant forall n :: n in systems && n !in remaining ==>
          newSystems[n] == Refiled(systems[n], SignatureIn(signatures, n), entity, entitySignature)
        decreases remaining
      {
        var typeName :| typeName in remaining;
        if typeName !in newSignatures {
          newSignatures := newSignatures[typeName := {}];
        }
        var systemSignature := newSignatures[typeName];
        if Matches(systemSignature, entitySignature) {
          newSystems := newSystems[typeName := newSystems[typeName] + {entity}];
        } else {
          newSystems := newSystems[typeName := newSystems[typeName] - {entity}];
        }
        remaining := remaining - {typeName};
      }
      signatures := newSignatures;
      systems := newSystems;
    }
  }

  /** The signature a map of system signatures yields for a name, empty when absent. */
  function SignatureIn(signatures: map<string, Signature>, typeName: string): (s: Signature)
    ensures typeName !in signatures ==> s == {}
    ensures typeName in signatures ==> s == signatures[typeName]
  {
    if typeName in signatures then signatures[typeName] else {}
  }

  /** A system's entity set after one entity's signature changed. */
  function Refiled(members: set<Entity>, systemSignature: Signature, entity: Entity, entitySignature: Signature): (r: set<Entity>)
    ensures entity in r <==> Matches(systemSignature, entitySignature)
    ensures systemSignature == {} ==> entity in r
    ensures forall other :: other != entity ==> (other in r <==> other in members)
  {
    if Matches(systemSignature, entitySignature) then members + {entity} else members - {entity}
  }
}
