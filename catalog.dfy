/** The parameter catalog of the exergy dashboard: for each application and
    heat-pump topology, the ordered table of input parameters with their
    defaults, input steps and valid ranges. A range bound is either a number
    or the value of an earlier parameter shifted by a whole offset. */
module Catalog {
  import opened Wrappers
  import Decimal

  /** One end of a valid range: a number written in the table, or the value
      of the parameter `id` plus `offset` (the table's text `id+2`, `id-2`, `id`). */
  datatype Bound = Lit(value: int) | Ref(id: string, offset: int)

  /** The help text of a parameter, in English and in Korean. */
  datatype Explanation = Explanation(en: string, kr: string)

  datatype Parameter = Parameter(
    id: string,
    explanation: Explanation,
    latex: string,
    defaultValue: real,
    low: Bound,
    high: Bound,
    unit: string,
    step: real)

  /** A system case: the dictionary whose only key is `parameters`. */
  datatype SystemSpec = SystemSpec(parameters: seq<Parameter>)

  /** `KeyError` is what a failed dictionary lookup raises; `MissingDependency`
      names a bound whose referenced parameter has no value. */
  datatype CatalogError = KeyError(key: string) | MissingDependency(id: string)

  // ---------------------------------------------------------------------
  // The text form of a bound

  predicate IsIdentChar(c: char) {
    'a' <= c <= 'z' || 'A' <= c <= 'Z' || Decimal.IsDigit(c) || c == '_'
  }

  /** A parameter identifier: letters, digits and underscores, not starting
      with a digit. */
  predicate IsIdent(s: string) {
    |s| > 0 && !Decimal.IsDigit(s[0]) && forall i :: 0 <= i < |s| ==> IsIdentChar(s[i])
  }

  predicate IsSign(c: char) {
    c == '+' || c == '-'
  }

  /** A range entry as the table writes it: a number or a string. */
  datatype RangeItem = Number(n: int) | Text(s: string)

  /** How the table writes a symbolic bound: `<id>`, `<id>+c` or `<id>-c`. */
  function RefText(id: string, offset: int): string {
    if offset == 0 then id
    else if offset > 0 then id + "+" + Decimal.Str(offset)
    else id + "-" + Decimal.Str(-offset)
  }

  /** How the table writes a bound. */
  function Written(b: Bound): RangeItem {
    match b
    case Lit(v) => Number(v)
    case Ref(id, offset) => Text(RefText(id, offset))
  }

  /** The position of the first sign character of `t`, or `|t|` if none. */
  function SignAt(t: string): (k: nat)
    ensures k <= |t|
    ensures forall j :: 0 <= j < k ==> !IsSign(t[j])
    ensures k < |t| ==> IsSign(t[k])
  {
    if |t| == 0 || IsSign(t[0]) then 0 else 1 + SignAt(t[1..])
  }

  /** Reads the text of a symbolic bound: an identifier, optionally followed
      by a sign and a run of digits. The reading is lenient: leading zeros
      and a signed zero are accepted (`T_0+02` reads as `T_0+2`, `T_0-0` as
      `T_0`), so only the direction `Load(Written(b)) == Some(b)` is proved. */
  function ParseRef(t: string): (r: Option<Bound>)
    ensures r.Some? ==> r.value.Ref? && IsIdent(r.value.id)
  {
    var k := SignAt(t);
    if !IsIdent(t[..k]) then None
    else if k == |t| then Some(Ref(t, 0))
    else if !Decimal.IsDigits(t[k + 1..]) then None
    else
      var n: int := Decimal.Value(t[k + 1..]);
      Some(Ref(t[..k], if t[k] == '+' then n else -n))
  }

  /** Reads a range entry, a number or a text, as a bound. The tables below
      hold the bounds already tagged; this is the reading of the form the
      source writes them in. */
  function Load(item: RangeItem): Option<Bound> {
    match item
    case Number(n) => Some(Lit(n))
    case Text(s) => ParseRef(s)
  }

  predicate WellFormedBound(b: Bound) {
    b.Ref? ==> IsIdent(b.id)
  }

  predicate NoSign(s: string) {
    forall i :: 0 <= i < |s| ==> !IsSign(s[i])
  }

  lemma {:induction false} SignAtAfter(id: string, rest: string)
    requires NoSign(id)
    requires rest == [] || IsSign(rest[0])
    ensures SignAt(id + rest) == |id|
    decreases |id|
  {
    var t := id + rest;
    if |id| == 0 {
      assert t == rest;
    } else {
      assert !IsSign(t[0]) by { assert t[0] == id[0]; }
      assert t[1..] == id[1..] + rest;
      SignAtAfter(id[1..], rest);
    }
  }

  /** Loading the text of a bound with a zero offset gives the bound back. */
  lemma LoadBareRef(id: string)
    requires IsIdent(id)
    ensures Load(Text(RefText(id, 0))) == Some(Ref(id, 0))
  {
    SignAtAfter(id, []);
    assert id + [] == id;
    assert id[..|id|] == id;
  }

  /** An identifier, a sign and digits read as the bound they spell. */
  lemma ParseSigned(id: string, sign: char, digits: string)
    requires IsIdent(id) && IsSign(sign) && Decimal.IsDigits(digits)
    ensures Load(Text(id + [sign] + digits))
         == Some(Ref(id, if sign == '+' then Decimal.Value(digits) else 0 - Decimal.Value(digits)))
  {
    var t := id + [sign] + digits;
    assert t == id + ([sign] + digits);
    SignAtAfter(id, [sign] + digits);
    assert t[..|id|] == id;
    assert t[|id|] == sign;
    assert t[|id| + 1..] == digits;
  }

  /** Loading the text of a bound with a non-zero offset gives the bound back. */
  lemma LoadSignedRef(id: string, offset: int)
    requires IsIdent(id) && offset != 0
    ensures Load(Text(RefText(id, offset))) == Some(Ref(id, offset))
  {
    var m: nat := if offset > 0 then offset else -offset;
    var sign := if offset > 0 then '+' else '-';
    assert RefText(id, offset) == id + [sign] + Decimal.Str(m);
    ParseSigned(id, sign, Decimal.Str(m));
    Decimal.ValueOfStr(m);
  }

  /** Loading the way a bound is written gives the bound back. */
  lemma LoadWritten(b: Bound)
    requires WellFormedBound(b)
    ensures Load(Written(b)) == Some(b)
  {
    if b.Ref? {
      if b.offset == 0 {
        LoadBareRef(b.id);
      } else {
        LoadSignedRef(b.id, b.offset);
      }
    }
  }

  // ---------------------------------------------------------------------
  // Resolving bounds

  /** The value of a bound given the values of the other parameters. */
  function Resolve(b: Bound, values: map<string, real>): (r: Result<real, CatalogError>)
    ensures r.Failure? <==> b.Ref? && b.id !in values
    ensures r.Failure? ==> r.error == MissingDependency(b.id)
  {
    match b
    case Lit(v) => Success(v as real)
    case Ref(id, offset) =>
      if id in values then Success(values[id] + offset as real)
      else Failure(MissingDependency(id))
  }

  /** The resolved range `(low, high)` of a parameter. */
  function ResolveRange(p: Parameter, values: map<string, real>): (r: Result<(real, real), CatalogError>)
    ensures r.Success? <==> Resolve(p.low, values).Success? && Resolve(p.high, values).Success?
  {
    match Resolve(p.low, values)
    case Failure(e) => Failure(e)
    case Success(lo) =>
      match Resolve(p.high, values)
      case Failure(e) => Failure(e)
      case Success(hi) => Success((lo, hi))
  }

  lemma ResolveRefValue(values: map<string, real>, id: string, offset: int)
    requires id in values
    ensures Resolve(Ref(id, offset), values) == Success(values[id] + offset as real)
  {
  }

  /** A bound depends on nothing but the value of the parameter it names. */
  lemma ResolveLocal(b: Bound, v1: map<string, real>, v2: map<string, real>)
    requires b.Ref? ==> (b.id in v1 <==> b.id in v2)
    requires b.Ref? && b.id in v1 ==> v1[b.id] == v2[b.id]
    ensures Resolve(b, v1) == Resolve(b, v2)
  {
  }

  /** Moving the referenced value moves the resolved bound by the same amount. */
  lemma ResolveShift(id: string, offset: int, values: map<string, real>, d: real)
    requires id in values
    ensures Resolve(Ref(id, offset), values[id := values[id] + d]).value
         == Resolve(Ref(id, offset), values).value + d
  {
  }

  // ---------------------------------------------------------------------
  // Structure of a parameter table

  function IdSet(ps: seq<Parameter>): set<string> {
    set i | 0 <= i < |ps| :: ps[i].id
  }

  /** The dictionary from identifier to default of a table. The table is a
      dictionary, so no identifier occurs twice (`UniqueIds`, proved of both
      tables); the first occurrence is taken. */
  function Defaults(ps: seq<Parameter>): (d: map<string, real>)
    ensures d.Keys == IdSet(ps)
  {
    map id | id in IdSet(ps) :: ps[IndexOf(ps, id)].defaultValue
  }

  function Ids(ps: seq<Parameter>): (r: seq<string>)
    ensures |r| == |ps| && forall i :: 0 <= i < |ps| ==> r[i] == ps[i].id
  {
    seq(|ps|, i requires 0 <= i < |ps| => ps[i].id)
  }

  predicate UniqueIds(ps: seq<Parameter>) {
    forall i, j :: 0 <= i < j < |ps| ==> ps[i].id != ps[j].id
  }

  /** The first position of `id` in the table, or `|ps|` if it is not there. */
  function IndexOf(ps: seq<Parameter>, id: string): (k: nat)
    ensures k <= |ps|
    ensures k < |ps| ==> ps[k].id == id
    ensures forall j :: 0 <= j < k ==> ps[j].id != id
  {
    if |ps| == 0 || ps[0].id == id then 0 else 1 + IndexOf(ps[1..], id)
  }

  /** `b` is a number or names a parameter of the table. */
  predicate RefDefined(ps: seq<Parameter>, b: Bound) {
    b.Ref? ==> IndexOf(ps, b.id) < |ps|
  }

  /** `b`, a bound of the `i`-th parameter, names a parameter declared before it. */
  predicate RefBefore(ps: seq<Parameter>, i: int, b: Bound) {
    b.Ref? ==> IndexOf(ps, b.id) < i
  }

  predicate RefsDefined(ps: seq<Parameter>) {
    forall i :: 0 <= i < |ps| ==> RefDefined(ps, ps[i].low) && RefDefined(ps, ps[i].high)
  }

  predicate RefsBackward(ps: seq<Parameter>) {
    forall i :: 0 <= i < |ps| ==> RefBefore(ps, i, ps[i].low) && RefBefore(ps, i, ps[i].high)
  }

  predicate PositiveSteps(ps: seq<Parameter>) {
    forall i :: 0 <= i < |ps| ==> ps[i].step > 0.0
  }

  /** A range written with two numbers is non-empty and not a single point. */
  predicate LiteralRangesOrdered(ps: seq<Parameter>) {
    forall i :: 0 <= i < |ps| && ps[i].low.Lit? && ps[i].high.Lit? ==>
      ps[i].low.value < ps[i].high.value
  }

  predicate DefaultInRange(p: Parameter, values: map<string, real>) {
    match ResolveRange(p, values)
    case Success((lo, hi)) => lo <= p.defaultValue <= hi
    case Failure(_) => false
  }

  /** Every default lies in its range, resolved against the table's defaults. */
  predicate DefaultsInRange(ps: seq<Parameter>) {
    forall i :: 0 <= i < |ps| ==> DefaultInRange(ps[i], Defaults(ps))
  }

  /** The facts about the `i`-th parameter alone that a well-formed table needs. */
  predicate EntryWellFormed(ps: seq<Parameter>, i: int)
    requires 0 <= i < |ps|
  {
    && WellFormedBound(ps[i].low) && WellFormedBound(ps[i].high)
    && RefDefined(ps, ps[i].low) && RefDefined(ps, ps[i].high)
    && RefBefore(ps, i, ps[i].low) && RefBefore(ps, i, ps[i].high)
    && ps[i].step > 0.0
    && (ps[i].low.Lit? && ps[i].high.Lit? ==> ps[i].low.value < ps[i].high.value)
    && DefaultInRange(ps[i], Defaults(ps))
  }

  /** `b`, a bound of the `i`-th parameter, is a number equal to `v`, or names
      the `j`-th parameter, declared before it, and comes to `v` from its default. */
  predicate BoundResolvesTo(ps: seq<Parameter>, i: int, b: Bound, j: int, v: real)
    requires 0 <= i < |ps|
  {
    match b
    case Lit(n) => v == n as real
    case Ref(id, offset) =>
      0 <= j < i && ps[j].id == id && IsIdent(id) && v == ps[j].defaultValue + offset as real
  }

  lemma BoundFacts(ps: seq<Parameter>, i: int, b: Bound, j: int, v: real)
    requires UniqueIds(ps) && 0 <= i < |ps| && BoundResolvesTo(ps, i, b, j, v)
    ensures WellFormedBound(b) && RefDefined(ps, b) && RefBefore(ps, i, b)
    ensures Resolve(b, Defaults(ps)) == Success(v)
  {
    if b.Ref? {
      RefToEarlier(ps, i, j, b.offset);
    }
  }

  /** The facts of one entry, from its resolved range `[lo, hi]`, where `jl`
      and `jh` are the positions of the parameters its bounds name, if any. */
  lemma EntryCheck(ps: seq<Parameter>, i: int, jl: int, jh: int, lo: real, hi: real)
    requires UniqueIds(ps) && 0 <= i < |ps|
    requires BoundResolvesTo(ps, i, ps[i].low, jl, lo) && BoundResolvesTo(ps, i, ps[i].high, jh, hi)
    requires ps[i].step > 0.0
    requires ps[i].low.Lit? && ps[i].high.Lit? ==> ps[i].low.value < ps[i].high.value
    requires lo <= ps[i].defaultValue <= hi
    ensures EntryWellFormed(ps, i)
  {
    BoundFacts(ps, i, ps[i].low, jl, lo);
    BoundFacts(ps, i, ps[i].high, jh, hi);
  }

  /** What one entry's integrity rests on: where its bounds point and what
      they resolve to, `[lo, hi]`. */
  datatype Certificate = Certificate(jl: int, jh: int, lo: real, hi: real)

  predicate Certifies(ps: seq<Parameter>, i: int, c: Certificate)
    requires 0 <= i < |ps|
  {
    && BoundResolvesTo(ps, i, ps[i].low, c.jl, c.lo)
    && BoundResolvesTo(ps, i, ps[i].high, c.jh, c.hi)
    && ps[i].step > 0.0
    && (ps[i].low.Lit? && ps[i].high.Lit? ==> ps[i].low.value < ps[i].high.value)
    && c.lo <= ps[i].defaultValue <= c.hi
  }

  /** A table with distinct identifiers whose every entry is certified is well formed. */
  lemma CertifiedTable(ps: seq<Parameter>, cs: seq<Certificate>)
    requires UniqueIds(ps) && |cs| == |ps|
    requires forall i :: 0 <= i < |ps| ==> Certifies(ps, i, cs[i])
    ensures WellFormedTable(ps)
    ensures forall i :: 0 <= i < |ps| ==> ResolveRange(ps[i], Defaults(ps)) == Success((cs[i].lo, cs[i].hi))
  {
    forall i | 0 <= i < |ps|
      ensures EntryWellFormed(ps, i)
      ensures ResolveRange(ps[i], Defaults(ps)) == Success((cs[i].lo, cs[i].hi))
    {
      EntryCheck(ps, i, cs[i].jl, cs[i].jh, cs[i].lo, cs[i].hi);
      BoundFacts(ps, i, ps[i].low, cs[i].jl, cs[i].lo);
      BoundFacts(ps, i, ps[i].high, cs[i].jh, cs[i].hi);
    }
    EntriesWellFormed(ps);
  }

  lemma EntriesWellFormed(ps: seq<Parameter>)
    requires UniqueIds(ps)
    requires forall i :: 0 <= i < |ps| ==> EntryWellFormed(ps, i)
    ensures WellFormedTable(ps)
  {
    forall i | 0 <= i < |ps|
      ensures WellFormedBound(ps[i].low) && WellFormedBound(ps[i].high)
      ensures RefDefined(ps, ps[i].low) && RefDefined(ps, ps[i].high)
      ensures RefBefore(ps, i, ps[i].low) && RefBefore(ps, i, ps[i].high)
      ensures ps[i].step > 0.0
      ensures ps[i].low.Lit? && ps[i].high.Lit? ==> ps[i].low.value < ps[i].high.value
      ensures DefaultInRange(ps[i], Defaults(ps))
    {
      assert EntryWellFormed(ps, i);
    }
  }

  predicate WellFormedTable(ps: seq<Parameter>) {
    && UniqueIds(ps)
    && (forall i :: 0 <= i < |ps| ==> WellFormedBound(ps[i].low) && WellFormedBound(ps[i].high))
    && RefsDefined(ps)
    && RefsBackward(ps)
    && PositiveSteps(ps)
    && LiteralRangesOrdered(ps)
    && DefaultsInRange(ps)
  }

  lemma DefaultsAt(ps: seq<Parameter>, i: int)
    requires UniqueIds(ps) && 0 <= i < |ps|
    ensures ps[i].id in Defaults(ps) && Defaults(ps)[ps[i].id] == ps[i].defaultValue
  {
    assert ps[i].id in IdSet(ps);
    var k := IndexOf(ps, ps[i].id);
    assert k <= i;
    assert k == i;
  }

  lemma UniquePrefix(ps: seq<Parameter>, i: int)
    requires UniqueIds(ps) && 0 <= i <= |ps|
    ensures UniqueIds(ps[..i])
  {
    var pre := ps[..i];
    forall k, l | 0 <= k < l < |pre| ensures pre[k].id != pre[l].id {
      assert pre[k] == ps[k] && pre[l] == ps[l];
    }
  }

  /** A bound naming a parameter declared before position `i` resolves
      against the defaults of the parameters before `i`, to the same value as
      against the defaults of the whole table. */
  lemma ResolveBoundFromPrefix(ps: seq<Parameter>, i: int, b: Bound)
    requires UniqueIds(ps) && 0 <= i <= |ps| && RefBefore(ps, i, b)
    ensures Resolve(b, Defaults(ps[..i])).Success?
    ensures Resolve(b, Defaults(ps[..i])) == Resolve(b, Defaults(ps))
  {
    if b.Ref? {
      var pre := ps[..i];
      var j := IndexOf(ps, b.id);
      assert pre[j] == ps[j];
      UniquePrefix(ps, i);
      ResolveDefault(pre, j, b.offset);
      ResolveDefault(ps, j, b.offset);
    }
  }

  /** Since every bound names an earlier parameter, the ranges can be resolved
      in declaration order: each parameter's range needs only the values of the
      parameters before it, so resolution never goes round a cycle, and the
      result is the one obtained from all the defaults together. */
  lemma ResolvesFromPredecessors(ps: seq<Parameter>, i: int)
    requires UniqueIds(ps) && RefsBackward(ps) && 0 <= i < |ps|
    ensures ResolveRange(ps[i], Defaults(ps[..i])).Success?
    ensures ResolveRange(ps[i], Defaults(ps[..i])) == ResolveRange(ps[i], Defaults(ps))
  {
    ResolveBoundFromPrefix(ps, i, ps[i].low);
    ResolveBoundFromPrefix(ps, i, ps[i].high);
  }

  /** A reference to the `j`-th parameter placed in the `i`-th, for a later `i`,
      points backwards and resolves to the `j`-th default plus the offset. */
  lemma RefToEarlier(ps: seq<Parameter>, i: int, j: int, offset: int)
    requires UniqueIds(ps) && 0 <= j < i < |ps|
    ensures RefBefore(ps, i, Ref(ps[j].id, offset)) && RefDefined(ps, Ref(ps[j].id, offset))
    ensures Resolve(Ref(ps[j].id, offset), Defaults(ps)) == Success(ps[j].defaultValue + offset as real)
  {
    IndexAtMost(ps, ps[j].id, j);
    ResolveDefault(ps, j, offset);
  }

  lemma IndexAtMost(ps: seq<Parameter>, id: string, j: int)
    requires 0 <= j < |ps| && ps[j].id == id
    ensures IndexOf(ps, id) <= j
  {
  }

  lemma ResolveDefault(ps: seq<Parameter>, j: int, offset: int)
    requires UniqueIds(ps) && 0 <= j < |ps|
    ensures Resolve(Ref(ps[j].id, offset), Defaults(ps)) == Success(ps[j].defaultValue + offset as real)
  {
    DefaultsAt(ps, j);
    ResolveRefValue(Defaults(ps), ps[j].id, offset);
  }

  /** In particular the first parameter of such a table has only numbers as bounds. */
  lemma FirstHasLiteralBounds(ps: seq<Parameter>)
    requires RefsBackward(ps) && |ps| > 0
    ensures ps[0].low.Lit? && ps[0].high.Lit?
  {
    assert RefBefore(ps, 0, ps[0].low) && RefBefore(ps, 0, ps[0].high);
  }
}
