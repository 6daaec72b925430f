/**
 Sparkplug metrics as trees: a metric is a typed value or a UDT (template instance) holding named
 metrics and parameters. Diff (`CompareValue`), patch (`AssignNewValue`) and the schema check.
 Maps are kept as entry lists in iteration order; the order matters where the code breaks off a loop.
 */
module MetricTree {
  import opened Wrappers

  datatype Value = VBool(b: bool) | VInt(n: int) | VReal(r: real) | VString(s: string)

  /** `mtype` is the metric's declared type, `dtype` the type of the value it holds. */
  datatype Metric =
    | Leaf(mtype: nat, dtype: nat, val: Value)
    | Udt(defName: string, defVer: string, isDefinition: bool, metrics: Entries, params: Entries)

  datatype Entries = Nil | Cons(name: string, metric: Metric, rest: Entries)

  datatype Verdict = Same | TypesDiffer | ValuesDiffer

  function Size(m: Metric): nat {
    match m
    case Leaf(_, _, _) => 1
    case Udt(_, _, _, metrics, params) => 1 + SizeAll(metrics) + SizeAll(params)
  }

  function SizeAll(es: Entries): nat {
    match es
    case Nil => 0
    case Cons(_, m, rest) => 1 + Size(m) + SizeAll(rest)
  }

  function Length(es: Entries): nat {
    match es
    case Nil => 0
    case Cons(_, _, rest) => 1 + Length(rest)
  }

  function Keys(es: Entries): set<string> {
    match es
    case Nil => {}
    case Cons(k, _, rest) => {k} + Keys(rest)
  }

  function Find(es: Entries, k: string): (r: Option<Metric>)
    ensures r.Some? <==> k in Keys(es)
    ensures r.Some? ==> Size(r.value) < SizeAll(es)
  {
    match es
    case Nil => None
    case Cons(name, m, rest) => if name == k then Some(m) else Find(rest, k)
  }

  /** Replaces the metric stored under a present key. */
  function Set(es: Entries, k: string, m: Metric): (r: Entries)
    ensures Keys(r) == Keys(es)
  {
    match es
    case Nil => Nil
    case Cons(name, first, rest) => if name == k then Cons(name, m, rest) else Cons(name, first, Set(rest, k, m))
  }

  /** Key order of `std::map<std::string, ...>`. */
  predicate Before(a: string, b: string) {
    if b == [] then false
    else if a == [] then true
    else a[0] < b[0] || (a[0] == b[0] && Before(a[1..], b[1..]))
  }

  /** Inserts an absent key in order. */
  function Insert(es: Entries, k: string, m: Metric): (r: Entries)
    ensures Keys(r) == Keys(es) + {k}
  {
    match es
    case Nil => Cons(k, m, Nil)
    case Cons(name, first, rest) =>
      if Before(k, name) then Cons(k, m, es) else Cons(name, first, Insert(rest, k, m))
  }

  /** Keys are distinct, at every level. */
  predicate Distinct(es: Entries) {
    match es
    case Nil => true
    case Cons(k, m, rest) => k !in Keys(rest) && DistinctIn(m) && Distinct(rest)
  }

  predicate DistinctIn(m: Metric) {
    m.Udt? ==> Distinct(m.metrics) && Distinct(m.params)
  }

  lemma FindSet(es: Entries, k: string, m: Metric, q: string)
    requires k in Keys(es)
    ensures Find(Set(es, k, m), q) == if q == k then Some(m) else Find(es, q)
  {
  }

  lemma FindInsert(es: Entries, k: string, m: Metric, q: string)
    requires k !in Keys(es)
    ensures Find(Insert(es, k, m), q) == if q == k then Some(m) else Find(es, q)
  {
  }

  /** Keys ascend, as in the source's maps. */
  predicate Ordered(es: Entries) {
    es.Cons? && es.rest.Cons? ==> Before(es.name, es.rest.name) && Ordered(es.rest)
  }

  /** The order is that of the first difference; a proper prefix comes first. */
  lemma {:induction false} BeforeAt(a: string, b: string, i: nat)
    requires i <= |a| && i < |b| && a[..i] == b[..i] && (i == |a| || a[i] != b[i])
    ensures Before(a, b) <==> i == |a| || a[i] < b[i]
  {
    if i == 0 {
    } else {
      assert a[0] == a[..i][0] == b[..i][0] == b[0];
      assert a[1..][..i - 1] == a[..i][1..] == b[..i][1..] == b[1..][..i - 1];
      BeforeAt(a[1..], b[1..], i - 1);
    }
  }

  lemma {:induction false} BeforeOrTurned(a: string, b: string)
    ensures !(Before(a, b) && Before(b, a))
    ensures a == b || Before(a, b) || Before(b, a)
  {
    if a == [] || b == [] {
    } else {
      BeforeOrTurned(a[1..], b[1..]);
      assert a == [a[0]] + a[1..] && b == [b[0]] + b[1..];
    }
  }

  lemma {:induction false} InsertKeepsOrder(es: Entries, k: string, m: Metric)
    requires Ordered(es) && k !in Keys(es)
    ensures Ordered(Insert(es, k, m))
  {
    if es.Nil? {
    } else {
      BeforeOrTurned(k, es.name);
      InsertKeepsOrder(es.rest, k, m);
    }
  }

  lemma FindDistinct(es: Entries, k: string)
    requires Distinct(es) && k in Keys(es)
    ensures DistinctIn(Find(es, k).value)
  {
  }

  lemma SetDistinct(es: Entries, k: string, m: Metric)
    requires Distinct(es) && DistinctIn(m)
    ensures Distinct(Set(es, k, m))
  {
  }

  lemma InsertDistinct(es: Entries, k: string, m: Metric)
    requires Distinct(es) && DistinctIn(m) && k !in Keys(es)
    ensures Distinct(Insert(es, k, m))
  {
  }

  // ----- the code -----

  /** Compares an incoming metric with a stored one. A UDT that differs is pruned to what differs. */
  function CompareValue(mine: Metric, incoming: Metric): (Verdict, Metric)
    decreases incoming, 0
  {
    match (mine, incoming)
    case (Leaf(_, t1, v1), Leaf(_, t2, v2)) =>
      (if t1 != t2 then TypesDiffer else if v1 == v2 then Same else ValuesDiffer, incoming)
    case (Udt(_, _, _, es1, _), Udt(_, _, _, es2, _)) =>
      var changes := CompareMetricMapValues(es1, es2);
      if changes == Nil then (Same, incoming) else (ValuesDiffer, incoming.(metrics := changes))
    case _ => (TypesDiffer, incoming)
  }

  /** The incoming entries whose values differ; the walk stops at the first unknown key. */
  function CompareMetricMapValues(mine: Entries, incoming: Entries): Entries
    decreases incoming, 1
  {
    match incoming
    case Nil => Nil
    case Cons(k, m, rest) =>
      match Find(mine, k)
      case None => Nil
      case Some(stored) =>
        var (verdict, pruned) := CompareValue(stored, m);
        var more := CompareMetricMapValues(mine, rest);
        if verdict == ValuesDiffer then Cons(k, pruned, more) else more
  }

  function AssignNewValue(mine: Metric, incoming: Metric): Metric
    decreases incoming, 0
  {
    match (mine, incoming)
    case (Leaf(_, t1, _), Leaf(_, t2, v2)) => if t1 == t2 then mine.(val := v2) else mine
    case (Udt(_, _, _, es1, _), Udt(_, _, _, es2, _)) => mine.(metrics := AssignAll(es1, es2))
    case _ => mine
  }

  function AssignAll(mine: Entries, incoming: Entries): (r: Entries)
    ensures Keys(r) == Keys(mine)
    decreases incoming, 1
  {
    match incoming
    case Nil => mine
    case Cons(k, m, rest) =>
      match Find(mine, k)
      case None => AssignAll(mine, rest)
      case Some(stored) => AssignAll(Set(mine, k, AssignNewValue(stored, m)), rest)
  }

  // ----- what a reader of the tree sees: typed values by path -----

  type Path = seq<string>

  datatype LeafValue = LeafValue(dtype: nat, val: Value)

  function At(es: Entries, path: Path): Option<LeafValue>
    decreases |path|, 1
  {
    if path == [] then None
    else
      match Find(es, path[0])
      case None => None
      case Some(m) => AtIn(m, path[1..])
  }

  function AtIn(m: Metric, path: Path): Option<LeafValue>
    decreases |path|, 2
  {
    match m
    case Leaf(_, dtype, val) => if path == [] then Some(LeafValue(dtype, val)) else None
    case Udt(_, _, _, metrics, _) => At(metrics, path)
  }

  /** `patch` laid over `base`. */
  function Over(patch: Option<LeafValue>, base: Option<LeafValue>): Option<LeafValue> {
    if patch.Some? then patch else base
  }

  /** Every incoming key is stored, with the same type, at every level. */
  predicate Fits(mine: Entries, incoming: Entries)
    decreases incoming, 1
  {
    match incoming
    case Nil => true
    case Cons(k, m, rest) => k in Keys(mine) && FitsIn(Find(mine, k).value, m) && Fits(mine, rest)
  }

  predicate FitsIn(mine: Metric, incoming: Metric)
    decreases incoming, 0
  {
    match (mine, incoming)
    case (Leaf(_, t1, _), Leaf(_, t2, _)) => t1 == t2
    case (Udt(_, _, _, es1, _), Udt(_, _, _, es2, _)) => Fits(es1, es2)
    case _ => false
  }

  // ----- patch -----

  lemma {:induction false} FitsSet(mine: Entries, incoming: Entries, k: string, m: Metric)
    requires Fits(mine, incoming) && k in Keys(mine) && k !in Keys(incoming)
    ensures Fits(Set(mine, k, m), incoming)
  {
    if incoming.Nil? {
    } else {
      FindSet(mine, k, m, incoming.name);
      FitsSet(mine, incoming.rest, k, m);
    }
  }

  /** Assigning a fitting tree lays its leaves over the stored ones and changes nothing else. */
  lemma {:induction false} AssignAt(mine: Entries, incoming: Entries, path: Path)
    requires Distinct(incoming) && Fits(mine, incoming)
    ensures At(AssignAll(mine, incoming), path) == Over(At(incoming, path), At(mine, path))
    decreases incoming, 1
  {
    if incoming.Nil? {
    } else {
      var k := incoming.name;
      var stored := Find(mine, k).value;
      var updated := AssignNewValue(stored, incoming.metric);
      FitsSet(mine, incoming.rest, k, updated);
      AssignAt(Set(mine, k, updated), incoming.rest, path);
      if path != [] {
        FindSet(mine, k, updated, path[0]);
        AssignAtIn(stored, incoming.metric, path[1..]);
      }
    }
  }

  lemma {:induction false} AssignAtIn(mine: Metric, incoming: Metric, path: Path)
    requires DistinctIn(incoming) && FitsIn(mine, incoming)
    ensures AtIn(AssignNewValue(mine, incoming), path) == Over(AtIn(incoming, path), AtIn(mine, path))
    decreases incoming, 0
  {
    if mine.Leaf? {
    } else {
      AssignAt(mine.metrics, incoming.metrics, path);
    }
  }

  lemma {:induction false} AssignDistinct(mine: Entries, incoming: Entries)
    requires Distinct(mine)
    ensures Distinct(AssignAll(mine, incoming))
    decreases incoming, 1
  {
    if incoming.Nil? {
    } else {
      var k := incoming.name;
      if k in Keys(mine) {
        var stored := Find(mine, k).value;
        FindDistinct(mine, k);
        AssignDistinctIn(stored, incoming.metric);
        SetDistinct(mine, k, AssignNewValue(stored, incoming.metric));
        AssignDistinct(Set(mine, k, AssignNewValue(stored, incoming.metric)), incoming.rest);
      } else {
        AssignDistinct(mine, incoming.rest);
      }
    }
  }

  lemma {:induction false} AssignDistinctIn(mine: Metric, incoming: Metric)
    requires DistinctIn(mine)
    ensures DistinctIn(AssignNewValue(mine, incoming))
    decreases incoming, 0
  {
    if mine.Leaf? || incoming.Leaf? {
    } else {
      AssignDistinct(mine.metrics, incoming.metrics);
    }
  }

  // ----- diff -----

  /** Whatever comes in, the pruned tree fits the stored one: assigning it cannot miss. */
  lemma {:induction false} PrunedFits(mine: Entries, incoming: Entries)
    requires Distinct(incoming)
    ensures
      var pruned := CompareMetricMapValues(mine, incoming);
      Fits(mine, pruned) && Distinct(pruned) && Keys(pruned) <= Keys(incoming)
    decreases incoming, 1
  {
    if incoming.Nil? || incoming.name !in Keys(mine) {
    } else {
      PrunedFitsIn(Find(mine, incoming.name).value, incoming.metric);
      PrunedFits(mine, incoming.rest);
    }
  }

  lemma {:induction false} PrunedFitsIn(mine: Metric, incoming: Metric)
    requires DistinctIn(incoming)
    ensures
      var (verdict, pruned) := CompareValue(mine, incoming);
      verdict == ValuesDiffer ==> FitsIn(mine, pruned) && DistinctIn(pruned)
    decreases incoming, 0
  {
    if mine.Leaf? || incoming.Leaf? {
    } else {
      PrunedFits(mine.metrics, incoming.metrics);
    }
  }

  /** The incoming leaf, where it differs from the stored one. */
  function Changed(mine: Option<LeafValue>, incoming: Option<LeafValue>): Option<LeafValue> {
    if incoming.Some? && mine != incoming then incoming else None
  }

  /** A fitting tree is pruned to exactly its differing leaves. */
  lemma {:induction false} PrunedAt(mine: Entries, incoming: Entries, path: Path)
    requires Distinct(incoming) && Fits(mine, incoming)
    ensures At(CompareMetricMapValues(mine, incoming), path) == Changed(At(mine, path), At(incoming, path))
    decreases incoming, 1
  {
    if incoming.Nil? || path == [] {
    } else {
      PrunedFits(mine, incoming.rest);
      PrunedAt(mine, incoming.rest, path);
      PrunedAtIn(Find(mine, incoming.name).value, incoming.metric, path[1..]);
    }
  }

  lemma {:induction false} PrunedAtIn(mine: Metric, incoming: Metric, path: Path)
    requires DistinctIn(incoming) && FitsIn(mine, incoming)
    ensures
      var (verdict, pruned) := CompareValue(mine, incoming);
      && verdict != TypesDiffer
      && (verdict == Same ==> Changed(AtIn(mine, path), AtIn(incoming, path)) == None)
      && (verdict == ValuesDiffer ==> AtIn(pruned, path) == Changed(AtIn(mine, path), AtIn(incoming, path)))
    decreases incoming, 0
  {
    if mine.Leaf? {
    } else {
      PrunedAt(mine.metrics, incoming.metrics, path);
    }
  }

  /** A non-empty pruned tree has a leaf. */
  lemma {:induction false} PrunedHasLeaf(mine: Entries, incoming: Entries) returns (path: Path)
    requires Distinct(incoming) && CompareMetricMapValues(mine, incoming) != Nil
    ensures At(CompareMetricMapValues(mine, incoming), path).Some?
    decreases incoming, 1
  {
    var (verdict, pruned) := CompareValue(Find(mine, incoming.name).value, incoming.metric);
    if verdict == ValuesDiffer {
      var inner := PrunedHasLeafIn(Find(mine, incoming.name).value, incoming.metric);
      path := [incoming.name] + inner;
      assert path[1..] == inner;
    } else {
      path := PrunedHasLeaf(mine, incoming.rest);
    }
  }

  lemma {:induction false} PrunedHasLeafIn(mine: Metric, incoming: Metric) returns (path: Path)
    requires DistinctIn(incoming) && CompareValue(mine, incoming).0 == ValuesDiffer
    ensures AtIn(CompareValue(mine, incoming).1, path).Some?
    decreases incoming, 0
  {
    if incoming.Udt? {
      path := PrunedHasLeaf(mine.metrics, incoming.metrics);
    } else {
      path := [];
    }
  }

  /** Diff and patch together, for a UDT whose incoming keys are stored with matching types. */
  lemma DiffThenPatch(mine: Metric, incoming: Metric)
    requires DistinctIn(incoming) && FitsIn(mine, incoming)
    ensures
      var (verdict, pruned) := CompareValue(mine, incoming);
      && verdict != TypesDiffer
      && (verdict == Same <==> forall path :: AtIn(incoming, path).Some? ==> AtIn(mine, path) == AtIn(incoming, path))
      && (verdict == ValuesDiffer ==>
            forall path ::
              && AtIn(pruned, path) == Changed(AtIn(mine, path), AtIn(incoming, path))
              && AtIn(AssignNewValue(mine, pruned), path) == Over(AtIn(incoming, path), AtIn(mine, path)))
  {
    var (verdict, pruned) := CompareValue(mine, incoming);
    forall path {
      PrunedAtIn(mine, incoming, path);
    }
    if verdict == ValuesDiffer {
      PrunedFitsIn(mine, incoming);
      forall path {
        AssignAtIn(mine, pruned, path);
      }
      var differs := PrunedHasLeafIn(mine, incoming);
      assert AtIn(mine, differs) != AtIn(incoming, differs);
    }
  }

  // ----- what diff and patch do to any trees, whether they fit or not -----

  /** Both sides hold a value of the same type. */
  predicate Meets(mine: Option<LeafValue>, incoming: Option<LeafValue>) {
    mine.Some? && incoming.Some? && mine.value.dtype == incoming.value.dtype
  }

  /** Assigning sets exactly the values that are stored with the same type; all else is ignored. */
  lemma {:induction false} AssignExactly(mine: Entries, incoming: Entries, path: Path)
    requires Distinct(incoming)
    ensures At(AssignAll(mine, incoming), path) ==
            if Meets(At(mine, path), At(incoming, path)) then At(incoming, path) else At(mine, path)
    decreases incoming, 1
  {
    if incoming.Nil? || path == [] {
    } else if incoming.name !in Keys(mine) {
      AssignExactly(mine, incoming.rest, path);
    } else {
      var k := incoming.name;
      var stored := Find(mine, k).value;
      var updated := AssignNewValue(stored, incoming.metric);
      AssignExactly(Set(mine, k, updated), incoming.rest, path);
      FindSet(mine, k, updated, path[0]);
      AssignExactlyIn(stored, incoming.metric, path[1..]);
    }
  }

  lemma {:induction false} AssignExactlyIn(mine: Metric, incoming: Metric, path: Path)
    requires DistinctIn(incoming)
    ensures AtIn(AssignNewValue(mine, incoming), path) ==
            if Meets(AtIn(mine, path), AtIn(incoming, path)) then AtIn(incoming, path) else AtIn(mine, path)
    decreases incoming, 0
  {
    if mine.Leaf? || incoming.Leaf? {
    } else {
      AssignExactly(mine.metrics, incoming.metrics, path);
    }
  }

  /** No key up to `k` is unknown: the walk over the incoming map has not broken off before. */
  predicate KnownUpTo(mine: Entries, incoming: Entries, k: string) {
    incoming.Cons? && incoming.name in Keys(mine) && (incoming.name == k || KnownUpTo(mine, incoming.rest, k))
  }

  /** The comparison gets to this path. */
  predicate Walked(mine: Entries, incoming: Entries, path: Path)
    decreases |path|, 1
  {
    path != [] && path[0] in Keys(incoming) && path[0] in Keys(mine) && KnownUpTo(mine, incoming, path[0])
    && WalkedIn(Find(mine, path[0]).value, Find(incoming, path[0]).value, path[1..])
  }

  predicate WalkedIn(mine: Metric, incoming: Metric, path: Path)
    decreases |path|, 2
  {
    mine.Udt? && incoming.Udt? ==> Walked(mine.metrics, incoming.metrics, path)
  }

  /** The incoming value where it is new: stored with the same type and another value. */
  function NewAt(mine: Option<LeafValue>, incoming: Option<LeafValue>): Option<LeafValue> {
    if Meets(mine, incoming) then Changed(mine, incoming) else None
  }

  /** Pruning leaves exactly the new values that the walk gets to. */
  lemma {:induction false} PrunedExactly(mine: Entries, incoming: Entries, path: Path)
    requires Distinct(incoming)
    ensures At(CompareMetricMapValues(mine, incoming), path) ==
            if Walked(mine, incoming, path) then NewAt(At(mine, path), At(incoming, path)) else None
    decreases incoming, 1
  {
    if incoming.Nil? || path == [] || incoming.name !in Keys(mine) {
    } else {
      PrunedFits(mine, incoming.rest);
      PrunedExactly(mine, incoming.rest, path);
      PrunedExactlyIn(Find(mine, incoming.name).value, incoming.metric, path[1..]);
    }
  }

  lemma {:induction false} PrunedExactlyIn(mine: Metric, incoming: Metric, path: Path)
    requires DistinctIn(incoming)
    ensures
      var (verdict, pruned) := CompareValue(mine, incoming);
      var fresher := if WalkedIn(mine, incoming, path) then NewAt(AtIn(mine, path), AtIn(incoming, path)) else None;
      if verdict == ValuesDiffer then AtIn(pruned, path) == fresher else fresher == None
    decreases incoming, 0
  {
    if mine.Leaf? || incoming.Leaf? {
    } else {
      PrunedExactly(mine.metrics, incoming.metrics, path);
    }
  }

  /** One is a UDT and the other is not, or their values have different types. */
  predicate Retyped(mine: Metric, incoming: Metric) {
    mine.Leaf? != incoming.Leaf? || (mine.Leaf? && incoming.Leaf? && mine.dtype != incoming.dtype)
  }

  /** The verdict tells a retyped metric, and otherwise whether there is any new value. */
  lemma VerdictExactly(mine: Metric, incoming: Metric)
    requires DistinctIn(incoming)
    ensures
      var verdict := CompareValue(mine, incoming).0;
      && (verdict == TypesDiffer <==> Retyped(mine, incoming))
      && (verdict == ValuesDiffer <==>
            exists path :: WalkedIn(mine, incoming, path) && NewAt(AtIn(mine, path), AtIn(incoming, path)).Some?)
  {
    if CompareValue(mine, incoming).0 == ValuesDiffer {
      var path := PrunedHasLeafIn(mine, incoming);
      PrunedExactlyIn(mine, incoming, path);
      assert WalkedIn(mine, incoming, path);
    }
    forall path | WalkedIn(mine, incoming, path) && NewAt(AtIn(mine, path), AtIn(incoming, path)).Some?
      ensures CompareValue(mine, incoming).0 == ValuesDiffer
    {
      PrunedExactlyIn(mine, incoming, path);
    }
  }

  /** Apart from its metrics a pruned UDT is the incoming one. */
  lemma PrunedKeepsRest(mine: Metric, incoming: Metric)
    ensures
      var pruned := CompareValue(mine, incoming).1;
      pruned == incoming || (pruned.Udt? && incoming.Udt? && pruned == incoming.(metrics := pruned.metrics))
  {
  }

  /** In a tree that fits every incoming value is walked and meets a stored one. */
  lemma {:induction false} FitsWalks(mine: Entries, incoming: Entries, path: Path)
    requires Distinct(incoming) && Fits(mine, incoming) && At(incoming, path).Some?
    ensures Walked(mine, incoming, path) && Meets(At(mine, path), At(incoming, path))
    decreases incoming, 1
  {
    if incoming.name == path[0] {
      FitsWalksIn(Find(mine, incoming.name).value, incoming.metric, path[1..]);
    } else {
      FitsWalks(mine, incoming.rest, path);
    }
  }

  lemma {:induction false} FitsWalksIn(mine: Metric, incoming: Metric, path: Path)
    requires DistinctIn(incoming) && FitsIn(mine, incoming) && AtIn(incoming, path).Some?
    ensures WalkedIn(mine, incoming, path) && Meets(AtIn(mine, path), AtIn(incoming, path))
    decreases incoming, 0
  {
    if mine.Leaf? {
    } else {
      FitsWalks(mine.metrics, incoming.metrics, path);
    }
  }

  // ----- the schema check -----

  /** The metric matches in kind and type, and a UDT in its reference and all its members. */
  predicate CompareMetrics(a: Metric, b: Metric)
    decreases a, 0
  {
    match (a, b)
    case (Leaf(m1, t1, _), Leaf(m2, t2, _)) => m1 == m2 && t1 == t2
    case (Udt(n1, v1, _, es1, ps1), Udt(n2, v2, _, es2, ps2)) =>
      !(n1 != n2 && v1 != v2) && CompareMetricMaps(es1, es2) && CompareMetricMaps(ps1, ps2)
    case _ => false
  }

  predicate CompareMetricMaps(es1: Entries, es2: Entries)
    decreases es1, 2
  {
    Length(es1) == Length(es2) && EachMatches(es1, es2)
  }

  predicate EachMatches(es1: Entries, es2: Entries)
    decreases es1, 1
  {
    match es1
    case Nil => true
    case Cons(k, m, rest) => k in Keys(es2) && CompareMetrics(m, Find(es2, k).value) && EachMatches(rest, es2)
  }

  // ----- known definitions -----

  /** Definitions by name and version. */
  type Templates = map<string, map<string, Metric>>

  function IsPresent(known: Templates, name: string, version: string): Option<Metric> {
    if name in known && version in known[name] then Some(known[name][version]) else None
  }

  /** Every definition carries the name and version that it is stored under. */
  ghost predicate KnownTemplates(known: Templates) {
    forall name, version :: name in known && version in known[name] ==>
      var d := known[name][version];
      d.Udt? && d.isDefinition && d.defName == name && d.defVer == version && DistinctIn(d)
  }

  /** A UDT instance is accepted when the definition that it names is known and matches it. */
  predicate Validate(m: Metric, known: Templates) {
    match m
    case Leaf(_, _, _) => true
    case Udt(name, version, isDefinition, _, _) =>
      var definition := IsPresent(known, name, version);
      !isDefinition && definition.Some? && CompareMetrics(m, definition.value)
  }

  class UdtManager {
    var known: Templates

    constructor ()
      ensures KnownTemplates(known) && known == map[]
    {
      known := map[];
    }

    /** A new definition is kept, one that is known already is ignored. */
    method AddNewUdt(udt: Metric) returns (added: bool)
      requires KnownTemplates(known) && udt.Udt? && udt.isDefinition && DistinctIn(udt)
      modifies this
      ensures KnownTemplates(known)
      ensures added == IsPresent(old(known), udt.defName, udt.defVer).None?
      ensures forall name, version :: IsPresent(known, name, version) ==
                if added && name == udt.defName && version == udt.defVer then Some(udt)
                else IsPresent(old(known), name, version)
    {
      var versions := if udt.defName in known then known[udt.defName] else map[];
      added := udt.defVer !in versions;
      if added {
        known := known[udt.defName := versions[udt.defVer := udt]];
      }
    }
  }

  /** The two trees have the same keys and leaf types at every level, in metrics and parameters, and at
      every level their references agree in name or in version. */
  ghost predicate SameSchema(a: Metric, b: Metric)
    decreases Size(a), 0
  {
    match (a, b)
    case (Leaf(m1, t1, _), Leaf(m2, t2, _)) => m1 == m2 && t1 == t2
    case (Udt(n1, v1, _, es1, ps1), Udt(n2, v2, _, es2, ps2)) =>
      (n1 == n2 || v1 == v2) && SameSchemas(es1, es2) && SameSchemas(ps1, ps2)
    case _ => false
  }

  ghost predicate SameSchemas(es1: Entries, es2: Entries)
    decreases SizeAll(es1), 1
  {
    Keys(es1) == Keys(es2)
    && forall k :: k in Keys(es1) ==> SameSchema(Find(es1, k).value, Find(es2, k).value)
  }

  lemma KeysCount(es: Entries)
    requires Distinct(es)
    ensures |Keys(es)| == Length(es)
  {
  }

  lemma SubsetOfSameSize<T>(a: set<T>, b: set<T>)
    requires a <= b && |a| == |b|
    ensures a == b
  {
    assert |b - a| == |b| - |a|;
  }

  /** Equal sizes and one-way inclusion are enough: the check accepts exactly the same schemas. */
  lemma {:induction false} CompareMetricsExact(a: Metric, b: Metric)
    requires DistinctIn(a) && DistinctIn(b)
    ensures CompareMetrics(a, b) <==> SameSchema(a, b)
    decreases a, 0
  {
    if a.Leaf? || b.Leaf? {
    } else {
      CompareMapsExact(a.metrics, b.metrics);
      CompareMapsExact(a.params, b.params);
    }
  }

  lemma {:induction false} CompareMapsExact(es1: Entries, es2: Entries)
    requires Distinct(es1) && Distinct(es2)
    ensures CompareMetricMaps(es1, es2) <==> SameSchemas(es1, es2)
    decreases es1, 2
  {
    EachMatchesExact(es1, es2);
    KeysCount(es1);
    KeysCount(es2);
    if CompareMetricMaps(es1, es2) {
      SubsetOfSameSize(Keys(es1), Keys(es2));
    }
  }

  lemma {:induction false} EachMatchesExact(es1: Entries, es2: Entries)
    requires Distinct(es1) && Distinct(es2)
    ensures EachMatches(es1, es2) <==>
            Keys(es1) <= Keys(es2)
            && forall k :: k in Keys(es1) ==> k in Keys(es2) && SameSchema(Find(es1, k).value, Find(es2, k).value)
    decreases es1, 1
  {
    if es1.Nil? {
    } else {
      EachMatchesExact(es1.rest, es2);
      if es1.name in Keys(es2) {
        FindDistinct(es2, es1.name);
        CompareMetricsExact(es1.metric, Find(es2, es1.name).value);
      }
      assert forall k :: k in Keys(es1.rest) ==> Find(es1, k) == Find(es1.rest, k);
      assert Find(es1, es1.name) == Some(es1.metric);
    }
  }

  /** An incoming instance passes exactly when the definition that it names is known and its members have the
      same schema. At the top level the reference test never rejects: the definition was looked up by it. */
  lemma ValidateExact(m: Metric, known: Templates)
    requires DistinctIn(m) && KnownTemplates(known)
    ensures Validate(m, known) <==>
            m.Leaf? || (!m.isDefinition && IsPresent(known, m.defName, m.defVer).Some?
                        && var d := IsPresent(known, m.defName, m.defVer).value;
                           SameSchemas(m.metrics, d.metrics) && SameSchemas(m.params, d.params))
  {
    if m.Udt? && IsPresent(known, m.defName, m.defVer).Some? {
      CompareMetricsExact(m, IsPresent(known, m.defName, m.defVer).value);
    }
  }

  // ----- assigning keeps the schema -----

  lemma {:induction false} SchemaReflexive(m: Metric)
    ensures SameSchema(m, m)
    decreases Size(m), 0
  {
    if m.Leaf? {
    } else {
      SchemasReflexive(m.metrics);
      SchemasReflexive(m.params);
    }
  }

  lemma {:induction false} SchemasReflexive(es: Entries)
    ensures SameSchemas(es, es)
    decreases SizeAll(es), 1
  {
    forall k | k in Keys(es)
      ensures SameSchema(Find(es, k).value, Find(es, k).value)
    {
      SchemaReflexive(Find(es, k).value);
    }
  }

  lemma {:induction false} AssignFind(mine: Entries, incoming: Entries, k: string)
    requires Distinct(incoming)
    ensures Find(AssignAll(mine, incoming), k) ==
            if k in Keys(mine) && k in Keys(incoming)
            then Some(AssignNewValue(Find(mine, k).value, Find(incoming, k).value)) else Find(mine, k)
    decreases incoming
  {
    if incoming.Nil? {
    } else if incoming.name !in Keys(mine) {
      AssignFind(mine, incoming.rest, k);
    } else {
      var updated := AssignNewValue(Find(mine, incoming.name).value, incoming.metric);
      AssignFind(Set(mine, incoming.name, updated), incoming.rest, k);
      FindSet(mine, incoming.name, updated, k);
    }
  }

  /** Whatever is assigned, keys, types, references and parameters stay. */
  lemma {:induction false} AssignKeepsSchema(mine: Metric, incoming: Metric)
    requires DistinctIn(incoming)
    ensures SameSchema(mine, AssignNewValue(mine, incoming))
    ensures mine.Udt? ==>
              AssignNewValue(mine, incoming) == mine.(metrics := AssignNewValue(mine, incoming).metrics)
    decreases Size(incoming)
  {
    if mine.Leaf? || incoming.Leaf? {
      SchemaReflexive(mine);
    } else {
      SchemasReflexive(mine.params);
      forall k | k in Keys(mine.metrics)
        ensures SameSchema(Find(mine.metrics, k).value, Find(AssignAll(mine.metrics, incoming.metrics), k).value)
      {
        AssignFind(mine.metrics, incoming.metrics, k);
        if k in Keys(incoming.metrics) {
          FindDistinct(incoming.metrics, k);
          AssignKeepsSchema(Find(mine.metrics, k).value, Find(incoming.metrics, k).value);
        } else {
          SchemaReflexive(Find(mine.metrics, k).value);
        }
      }
    }
  }

  /** An accepted instance has a value of the definition's type at exactly the definition's paths. */
  lemma {:induction false} SameSchemaSamePaths(a: Metric, b: Metric, path: Path)
    requires SameSchema(a, b)
    ensures AtIn(a, path).Some? <==> AtIn(b, path).Some?
    ensures AtIn(a, path).Some? ==> AtIn(a, path).value.dtype == AtIn(b, path).value.dtype
    decreases |path|
  {
    if a.Leaf? || path == [] || path[0] !in Keys(a.metrics) {
    } else {
      SameSchemaSamePaths(Find(a.metrics, path[0]).value, Find(b.metrics, path[0]).value, path[1..]);
    }
  }

  // ----- the references of nested UDTs -----

  /** The same keys and leaf types at every level, whatever the references. */
  ghost predicate SameShape(a: Metric, b: Metric)
    decreases Size(a), 0
  {
    match (a, b)
    case (Leaf(m1, t1, _), Leaf(m2, t2, _)) => m1 == m2 && t1 == t2
    case (Udt(_, _, _, es1, ps1), Udt(_, _, _, es2, ps2)) => SameShapes(es1, es2) && SameShapes(ps1, ps2)
    case _ => false
  }

  ghost predicate SameShapes(es1: Entries, es2: Entries)
    decreases SizeAll(es1), 1
  {
    Keys(es1) == Keys(es2)
    && forall k :: k in Keys(es1) ==> SameShape(Find(es1, k).value, Find(es2, k).value)
  }

  /** At every level that both have, the references agree in name or in version; `strictly` asks for both. */
  ghost predicate SameReferences(a: Metric, b: Metric, strictly: bool)
    decreases Size(a), 0
  {
    a.Udt? && b.Udt? ==>
      && (if strictly then a.defName == b.defName && a.defVer == b.defVer
          else a.defName == b.defName || a.defVer == b.defVer)
      && SameReferencesIn(a.metrics, b.metrics, strictly)
      && SameReferencesIn(a.params, b.params, strictly)
  }

  ghost predicate SameReferencesIn(es1: Entries, es2: Entries, strictly: bool)
    decreases SizeAll(es1), 1
  {
    forall k :: k in Keys(es1) && k in Keys(es2) ==>
      SameReferences(Find(es1, k).value, Find(es2, k).value, strictly)
  }

  /** The check is shape and references. */
  lemma {:induction false} SchemaIsShapeAndReferences(a: Metric, b: Metric)
    ensures SameSchema(a, b) <==> SameShape(a, b) && SameReferences(a, b, false)
    decreases Size(a), 0
  {
    if a.Leaf? || b.Leaf? {
    } else {
      SchemasAreShapesAndReferences(a.metrics, b.metrics);
      SchemasAreShapesAndReferences(a.params, b.params);
    }
  }

  lemma {:induction false} SchemasAreShapesAndReferences(es1: Entries, es2: Entries)
    ensures SameSchemas(es1, es2) <==> SameShapes(es1, es2) && SameReferencesIn(es1, es2, false)
    decreases SizeAll(es1), 1
  {
    forall k | k in Keys(es1) && k in Keys(es2)
      ensures var a, b := Find(es1, k).value, Find(es2, k).value;
              SameSchema(a, b) <==> SameShape(a, b) && SameReferences(a, b, false)
    {
      SchemaIsShapeAndReferences(Find(es1, k).value, Find(es2, k).value);
    }
  }

  lemma {:induction false} StrictReferencesAgree(a: Metric, b: Metric)
    requires SameReferences(a, b, true)
    ensures SameReferences(a, b, false)
    decreases Size(a), 0
  {
    if a.Leaf? || b.Leaf? {
    } else {
      StrictReferencesAgreeIn(a.metrics, b.metrics);
      StrictReferencesAgreeIn(a.params, b.params);
    }
  }

  lemma {:induction false} StrictReferencesAgreeIn(es1: Entries, es2: Entries)
    requires SameReferencesIn(es1, es2, true)
    ensures SameReferencesIn(es1, es2, false)
    decreases SizeAll(es1), 1
  {
    forall k | k in Keys(es1) && k in Keys(es2)
      ensures SameReferences(Find(es1, k).value, Find(es2, k).value, false)
    {
      StrictReferencesAgree(Find(es1, k).value, Find(es2, k).value);
    }
  }

  /** Sound for the shape, and complete when the references agree at every level. */
  lemma ReferencesDecide(a: Metric, b: Metric)
    requires DistinctIn(a) && DistinctIn(b)
    ensures CompareMetrics(a, b) ==> SameShape(a, b)
    ensures SameReferences(a, b, true) ==> (CompareMetrics(a, b) <==> SameShape(a, b))
  {
    CompareMetricsExact(a, b);
    SchemaIsShapeAndReferences(a, b);
    if SameReferences(a, b, true) {
      StrictReferencesAgree(a, b);
    }
  }

  function Station(pumpVersion: string, isDefinition: bool): Metric {
    Udt("station", "1.0", isDefinition, Cons("p", Udt("pump", pumpVersion, false, Nil, Nil), Nil), Nil)
  }

  /** The reference test rejects only when name and version both differ, so an instance passes although the
      UDT nested in it is of another version than the definition asks for. */
  lemma NestedOtherVersionAccepted()
    ensures
      var known := map["station" := map["1.0" := Station("1.0", true)]];
      && KnownTemplates(known) && Validate(Station("2.0", false), known)
      && !SameReferences(Station("2.0", false), Station("1.0", true), true)
  {
    var a, b := Station("2.0", false), Station("1.0", true);
    var pump2, pump1 := Udt("pump", "2.0", false, Nil, Nil), Udt("pump", "1.0", false, Nil, Nil);
    assert CompareMetrics(pump2, pump1);
    assert Find(a.metrics, "p") == Some(pump2) && Find(b.metrics, "p") == Some(pump1);
    assert EachMatches(a.metrics, b.metrics) by {
      assert a.metrics == Cons("p", pump2, Nil);
    }
    assert Length(a.metrics) == Length(b.metrics);
    assert !SameReferences(pump2, pump1, true);
    assert "p" in Keys(a.metrics) && "p" in Keys(b.metrics);
  }
}
