/** The dashboard's registry of configured systems: a dictionary from name to
    system kept in the session state, and a counter of the systems ever created. */
module Registry {
  import opened Wrappers
  import Decimal

  /** One entry of a system's `parameters` dictionary (the source spells the
      help-text key `explaination`). */
  datatype InputSpec = InputSpec(
    key: string, explanation: string, latex: string, defaultValue: real, unit: string)

  /** A configured system: its name, its `type` (`ASHP` or `GSHP` in the form)
      and its parameters in order. */
  datatype System = System(name: string, kind: string, parameters: seq<InputSpec>)

  datatype RegistryError = KeyError(key: string)

  /** The name `System {n}` given to the `n`-th system created. */
  function SystemName(n: nat): (s: string)
    ensures |s| > 7 && s[..7] == "System " && Decimal.IsDigits(s[7..])
  {
    var s := "System " + Decimal.Str(n);
    assert s[7..] == Decimal.Str(n);
    s
  }

  /** The number in a name of the form `System <digits>`. */
  function NameNumber(name: string): Option<nat> {
    if |name| > 7 && name[..7] == "System " && Decimal.IsDigits(name[7..])
    then Some(Decimal.Value(name[7..]))
    else None
  }

  lemma NameNumberOfName(n: nat)
    ensures NameNumber(SystemName(n)) == Some(n)
  {
    var s := SystemName(n);
    assert s[7..] == Decimal.Str(n);
    Decimal.ValueOfStr(n);
  }

  /** Distinct counts give distinct names. */
  lemma SystemNameInjective(m: nat, n: nat)
    requires SystemName(m) == SystemName(n)
    ensures m == n
  {
    NameNumberOfName(m);
    NameNumberOfName(n);
  }

  function Keys(ps: seq<InputSpec>): (r: seq<string>)
    ensures |r| == |ps| && forall i :: 0 <= i < |ps| ==> r[i] == ps[i].key
  {
    seq(|ps|, i requires 0 <= i < |ps| => ps[i].key)
  }

  function DefaultValues(ps: seq<InputSpec>): (r: seq<real>)
    ensures |r| == |ps| && forall i :: 0 <= i < |ps| ==> r[i] == ps[i].defaultValue
  {
    seq(|ps|, i requires 0 <= i < |ps| => ps[i].defaultValue)
  }

  /** The system `create_system` builds once the counter has reached `count`. */
  function NewSystem(kind: string, count: nat): (s: System)
    ensures s.name == SystemName(count) && s.kind == kind
    ensures Keys(s.parameters) == ["COP", "Q_r_int", "E_pmp", "dT_a", "QQQ"]
    ensures DefaultValues(s.parameters) == [4.0, 15.252, 0.48, 10.0, 10.0]
  {
    System(SystemName(count), kind, [
      InputSpec("COP", "Coefficient of Performance", "$COP$", 4.0, "-"),
      InputSpec("Q_r_int", "Internal heat gain", "$Q_{r,int}$", 15.252, "kW"),
      InputSpec("E_pmp", "Pump power", "$E_{pmp}$", 0.48, "kW"),
      InputSpec("dT_a", "Temperature difference between inlet and outlet air", "$\\Delta T_a$", 10.0, "℃"),
      InputSpec("QQQ", "Stock god", "$QQQ$", 10.0, "℃")
    ])
  }

  /** The registry invariant: every key is `System j` for some `j` from 1 to
      `count`, and is the name of the system stored under it. */
  predicate Registered(systems: map<string, System>, count: nat) {
    forall k :: k in systems ==>
      && NameNumber(k).Some?
      && 1 <= NameNumber(k).value <= count
      && SystemName(NameNumber(k).value) == k
      && systems[k].name == k
  }

  /** The name the next system gets is not taken, and storing the new system
      under it keeps the invariant with the incremented counter. */
  lemma AddFresh(systems: map<string, System>, count: nat, kind: string)
    requires Registered(systems, count)
    ensures SystemName(count + 1) !in systems
    ensures Registered(systems[SystemName(count + 1) := NewSystem(kind, count + 1)], count + 1)
  {
    NameNumberOfName(count + 1);
  }

  /** Removing any entry keeps the invariant. */
  lemma RemoveKeeps(systems: map<string, System>, count: nat, name: string)
    requires Registered(systems, count)
    ensures Registered(systems - {name}, count)
  {
  }

  /** Dropping the last-numbered name leaves a registry of one count less. */
  lemma DropTop(systems: map<string, System>, count: nat)
    requires Registered(systems, count) && count > 0
    ensures Registered(systems - {SystemName(count)}, count - 1)
  {
  }

  /** Removing one key removes at most one entry. */
  lemma RemoveOneSize<K, V>(m: map<K, V>, key: K)
    ensures |m| <= |m - {key}| + 1
  {
    assert m.Keys <= (m - {key}).Keys + {key};
    assert |m.Keys| <= |(m - {key}).Keys + {key}| <= |(m - {key}).Keys| + 1;
  }

  /** The registry never holds more systems than have been created. */
  lemma {:induction false} RegisteredSize(systems: map<string, System>, count: nat)
    requires Registered(systems, count)
    ensures |systems| <= count
    decreases count
  {
    if count == 0 {
      assert systems == map[];
    } else {
      DropTop(systems, count);
      RegisteredSize(systems - {SystemName(count)}, count - 1);
      RemoveOneSize(systems, SystemName(count));
    }
  }

  /** The session state's `systems` dictionary and `system_count` counter. */
  class SessionRegistry {
    var systems: map<string, System>
    var systemCount: nat

    ghost predicate Valid()
      reads this
    {
      Registered(systems, systemCount)
    }

    /** The state set up on the first run of a session. */
    constructor ()
      ensures Valid() && systems == map[] && systemCount == 0
    {
      systems := map[];
      systemCount := 0;
    }

    /** Counts one more system and returns it, named after the new count; the
        dictionary is not touched. */
    method CreateSystem(kind: string) returns (s: System)
      requires Valid()
      modifies this
      ensures Valid()
      ensures systemCount == old(systemCount) + 1 && systems == old(systems)
      ensures s == NewSystem(kind, systemCount)
    {
      systemCount := systemCount + 1;
      s := NewSystem(kind, systemCount);
    }

    /** Creates a system and stores it under its name, which no entry had before. */
    method AddSystem(kind: string)
      requires Valid()
      modifies this
      ensures Valid()
      ensures systemCount == old(systemCount) + 1
      ensures SystemName(systemCount) !in old(systems)
      ensures systems == old(systems)[SystemName(systemCount) := NewSystem(kind, systemCount)]
      ensures |systems| == |old(systems)| + 1
    {
      AddFresh(systems, systemCount, kind);
      var data := CreateSystem(kind);
      systems := systems[data.name := data];
    }

    /** `systems.pop(name)`: deletes exactly that entry, or raises `KeyError`
        and changes nothing when there is none. */
    method RemoveSystem(name: string) returns (r: Outcome<RegistryError>)
      requires Valid()
      modifies this
      ensures Valid()
      ensures systemCount == old(systemCount)
      ensures r.Pass? <==> name in old(systems)
      ensures r.Pass? ==> systems == old(systems) - {name}
      ensures r.Fail? ==> r == Fail(KeyError(name)) && systems == old(systems)
    {
      if name !in systems {
        return Fail(KeyError(name));
      }
      RemoveKeeps(systems, systemCount, name);
      systems := systems - {name};
      return Pass;
    }
  }
}
