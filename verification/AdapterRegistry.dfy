/** The adapter registry: lookup by id (or alias) and by family, most specific first. */
module AdapterRegistry {
  import opened Wrappers
  import opened Specificity

  // ---------- sorting ----------

  /** Moves x before every adapter it outranks; equals keep their order. */
  function Insert(sorted: seq<Adapter>, x: Adapter): (r: seq<Adapter>)
    ensures |r| == |sorted| + 1
  {
    if sorted == [] then [x]
    else
      var n := |sorted| - 1;
      if Before(x, sorted[n]) then Insert(sorted[..n], x) + [sorted[n]] else sorted + [x]
  }

  /** The stable sort by specificity. */
  function StableSort(list: seq<Adapter>): (r: seq<Adapter>)
    ensures |r| == |list|
  {
    if list == [] then [] else Insert(StableSort(list[..|list| - 1]), list[|list| - 1])
  }

  ghost predicate DistinctIds(list: seq<Adapter>) {
    forall i, j | 0 <= i < j < |list| :: list[i].id != list[j].id
  }

  /** Strictly descending specificity. */
  ghost predicate Ranked(list: seq<Adapter>) {
    forall i, j | 0 <= i < j < |list| :: Before(list[i], list[j])
  }

  lemma MemberSnoc(list: seq<Adapter>, x: Adapter, a: Adapter)
    ensures a in list + [x] <==> a in list || a == x
  {
    hide Before;
  }

  lemma {:induction false} InsertKeepsMembers(sorted: seq<Adapter>, x: Adapter, a: Adapter)
    ensures a in Insert(sorted, x) <==> a in sorted || a == x
  {
    if sorted != [] {
      hide Before;
      var n := |sorted| - 1;
      var before, last := sorted[..n], sorted[n];
      assert sorted == before + [last];
      InsertKeepsMembers(before, x, a);
      MemberSnoc(before, last, a);
      MemberSnoc(sorted, x, a);
      MemberSnoc(Insert(before, x), last, a);
    }
  }

  lemma {:induction false} InsertRanks(sorted: seq<Adapter>, x: Adapter)
    requires Ranked(sorted) && forall a | a in sorted :: a.id != x.id
    ensures Ranked(Insert(sorted, x))
  {
    if sorted != [] {
      hide Before, Ranked;
      var n := |sorted| - 1;
      RankedInit(sorted);
      assert sorted[n] in sorted && forall a | a in sorted[..n] :: a in sorted;
      SpecificityTotal(x, sorted[n]);
      if Before(x, sorted[n]) {
        InsertRanks(sorted[..n], x);
        RankedBelow(sorted, x);
        RankedSnoc(Insert(sorted[..n], x), sorted[n]);
      } else {
        forall i | 0 <= i <= n ensures Before(sorted[i], x) {
          if i < n {
            RankedPair(sorted, i, n);
            SpecificityTransitive(sorted[i], sorted[n], x);
          }
        }
        RankedSnoc(sorted, x);
      }
    }
  }

  ghost predicate AllBefore(list: seq<Adapter>, x: Adapter) {
    forall i | 0 <= i < |list| :: Before(list[i], x)
  }

  lemma RankedInit(list: seq<Adapter>)
    requires list != [] && Ranked(list)
    ensures Ranked(list[..|list| - 1])
  {
    hide Before;
  }

  lemma RankedPair(list: seq<Adapter>, i: nat, j: nat)
    requires Ranked(list) && i < j < |list|
    ensures Before(list[i], list[j])
  {
    hide Before;
  }

  lemma RankedSnoc(list: seq<Adapter>, x: Adapter)
    requires Ranked(list) && AllBefore(list, x)
    ensures Ranked(list + [x])
  {
    hide Before;
  }

  /** Everything inserted before the last adapter still outranks it. */
  lemma RankedBelow(sorted: seq<Adapter>, x: Adapter)
    requires sorted != [] && Ranked(sorted) && Before(x, sorted[|sorted| - 1])
    ensures AllBefore(Insert(sorted[..|sorted| - 1], x), sorted[|sorted| - 1])
  {
    hide Before, Insert;
    var n := |sorted| - 1;
    var before := Insert(sorted[..n], x);
    forall i | 0 <= i < |before| ensures Before(before[i], sorted[n]) {
      InsertKeepsMembers(sorted[..n], x, before[i]);
      if before[i] != x {
        var k :| 0 <= k < n && sorted[k] == before[i];
      }
    }
  }

  /** Sorting distinct adapters ranks them strictly and keeps exactly the same adapters. */
  lemma {:induction false} SortRanks(list: seq<Adapter>)
    requires DistinctIds(list)
    ensures Ranked(StableSort(list))
    ensures forall a :: a in StableSort(list) <==> a in list
  {
    if list != [] {
      hide Before, Insert;
      var n := |list| - 1;
      assert list == list[..n] + [list[n]];
      SortRanks(list[..n]);
      InsertRanks(StableSort(list[..n]), list[n]);
      forall a ensures a in StableSort(list) <==> a in list {
        MemberSnoc(list[..n], list[n], a);
        InsertKeepsMembers(StableSort(list[..n]), list[n], a);
      }
    }
  }

  lemma RankedIsDistinct(list: seq<Adapter>, i: nat, j: nat)
    requires Ranked(list) && i < |list| && j < |list| && list[i] == list[j]
    ensures i == j
  {
    SpecificityTotal(list[i], list[i]);
  }

  /** A strictly ranked list is determined by its members. */
  lemma {:induction false} RankedIsUnique(a: seq<Adapter>, b: seq<Adapter>)
    requires Ranked(a) && Ranked(b) && forall x :: x in a <==> x in b
    ensures a == b
  {
    hide Before;
    assert (a != [] ==> a[0] in b) && (b != [] ==> b[0] in a);
    if a != [] && b != [] {
      FirstIsSame(a, b);
      forall x ensures x in a[1..] <==> x in b[1..] {
        TailMember(a, x);
        TailMember(b, x);
      }
      RankedIsUnique(a[1..], b[1..]);
      assert a == [a[0]] + a[1..] && b == [b[0]] + b[1..];
    }
  }

  lemma FirstIsSame(a: seq<Adapter>, b: seq<Adapter>)
    requires a != [] && b != [] && Ranked(a) && Ranked(b) && forall x :: x in a <==> x in b
    ensures a[0] == b[0]
  {
    hide CompareSpecificity;
    assert a[0] in b && b[0] in a;
    var i :| 0 <= i < |b| && b[i] == a[0];
    var j :| 0 <= j < |a| && a[j] == b[0];
    SpecificityTotal(a[0], b[0]);
    SpecificityTotal(b[0], a[0]);
  }

  lemma TailMember(a: seq<Adapter>, x: Adapter)
    requires a != [] && Ranked(a)
    ensures x in a[1..] <==> x in a && x != a[0]
  {
    SpecificityTotal(a[0], a[0]);
    if x in a[1..] {
      var i :| 0 <= i < |a[1..]| && a[1..][i] == x;
      assert a[i + 1] == x;
    }
  }

  // ---------- registry states and operations ----------

  datatype State = State(adapters: seq<Adapter>, byFamily: map<string, seq<Adapter>>, byID: map<string, Adapter>)

  const EMPTY := State([], map[], map[])

  function FamilyList(byFamily: map<string, seq<Adapter>>, family: string): seq<Adapter> {
    if family in byFamily then byFamily[family] else []
  }

  function SortedFamilies(byFamily: map<string, seq<Adapter>>): map<string, seq<Adapter>> {
    map f | f in byFamily :: StableSort(byFamily[f])
  }

  function Registered(s: State, a: Adapter): State {
    State(s.adapters + [a],
          SortedFamilies(s.byFamily[a.family := FamilyList(s.byFamily, a.family) + [a]]),
          s.byID[a.id := a])
  }

  datatype Op = RegisterOp(adapter: Adapter) | AliasOp(alias: string, canonical: string)

  /** None stands for the panic. */
  function Step(s: State, op: Op): Option<State> {
    match op
    case RegisterOp(a) => if a.id in s.byID then None else Some(Registered(s, a))
    case AliasOp(alias, canonical) =>
      if canonical !in s.byID || alias in s.byID then None
      else Some(s.(byID := s.byID[alias := s.byID[canonical]]))
  }

  /** The state after a panic-free run of operations. */
  function Run(ops: seq<Op>): Option<State> {
    if ops == [] then Some(EMPTY)
    else
      var before := Run(ops[..|ops| - 1]);
      if before.None? then None else Step(before.value, ops[|ops| - 1])
  }

  // ---------- the class ----------

  class Registry {
    var adapters: seq<Adapter>
    var byFamily: map<string, seq<Adapter>>
    var byID: map<string, Adapter>

    constructor ()
      ensures Value() == EMPTY
    {
      adapters, byFamily, byID := [], map[], map[];
    }

    ghost function Value(): State
      reads this
    {
      State(adapters, byFamily, byID)
    }

    /** Adds an adapter and sorts every family; false stands for the panic on a duplicate id. */
    method Register(a: Adapter) returns (ok: bool)
      modifies this
      ensures ok <==> Step(old(Value()), RegisterOp(a)).Some?
      ensures ok <==> a.id !in old(byID)
      ensures Value() == if ok then Step(old(Value()), RegisterOp(a)).value else old(Value())
    {
      hide StableSort;
      if a.id in byID {
        return false;
      }
      adapters := adapters + [a];
      byID := byID[a.id := a];
      byFamily := byFamily[a.family := FamilyList(byFamily, a.family) + [a]];
      ghost var unsorted := byFamily;
      var remaining := byFamily.Keys;
      while remaining != {}
        modifies this`byFamily
        invariant remaining <= byFamily.Keys == unsorted.Keys
        invariant forall f | f in unsorted ::
                  byFamily[f] == if f in remaining then unsorted[f] else StableSort(unsorted[f])
        decreases remaining
      {
        var family :| family in remaining;
        byFamily := byFamily[family := StableSort(byFamily[family])];
        remaining := remaining - {family};
      }
      assert byFamily == SortedFamilies(unsorted);
      return true;
    }

    /** Makes alias resolve to a registered adapter; false stands for the panics. */
    method RegisterAlias(alias: string, canonical: string) returns (ok: bool)
      modifies this`byID
      ensures ok <==> Step(old(Value()), AliasOp(alias, canonical)).Some?
      ensures ok <==> canonical in old(byID) && alias !in old(byID)
      ensures ok ==> byID == old(byID)[alias := old(byID)[canonical]]
      ensures Value() == if ok then Step(old(Value()), AliasOp(alias, canonical)).value else old(Value())
    {
      if canonical !in byID || alias in byID {
        return false;
      }
      byID := byID[alias := byID[canonical]];
      return true;
    }

    method LookupByID(id: string) returns (found: Option<Adapter>)
      ensures found == if id in Value().byID then Some(Value().byID[id]) else None
    {
      found := if id in byID then Some(byID[id]) else None;
    }

    method LookupByFamily(family: string) returns (list: seq<Adapter>)
      ensures list == FamilyList(Value().byFamily, family)
    {
      list := FamilyList(byFamily, family);
    }
  }

  // ---------- what every run keeps ----------

  /** Every family list holds exactly the family's registered adapters, strictly ranked. */
  ghost predicate FamiliesExact(s: State, ops: seq<Op>) {
    forall f: string ::
      && Ranked(FamilyList(s.byFamily, f))
      && (forall a :: a in FamilyList(s.byFamily, f) <==> RegisterOp(a) in ops && a.family == f)
  }

  ghost predicate AdaptersFound(s: State, ops: seq<Op>) {
    forall a | RegisterOp(a) in ops :: a.id in s.byID && s.byID[a.id] == a
  }

  ghost predicate AliasesFound(s: State, ops: seq<Op>) {
    forall alias, canonical | AliasOp(alias, canonical) in ops ::
      alias in s.byID && canonical in s.byID && s.byID[alias] == s.byID[canonical]
  }

  ghost predicate IsRegistered(ops: seq<Op>, id: string) {
    exists a :: RegisterOp(a) in ops && a.id == id
  }

  ghost predicate IsAlias(ops: seq<Op>, id: string) {
    exists c :: AliasOp(id, c) in ops
  }

  ghost predicate NothingElseFound(s: State, ops: seq<Op>) {
    forall id | id in s.byID :: IsRegistered(ops, id) || IsAlias(ops, id)
  }

  ghost predicate HasFamily(ops: seq<Op>, f: string) {
    exists a :: RegisterOp(a) in ops && a.family == f
  }

  ghost predicate FamilyKeys(s: State, ops: seq<Op>) {
    forall f: string :: f in s.byFamily <==> HasFamily(ops, f)
  }

  /** The id table holds every adapter and alias, and nothing else. */
  ghost predicate IdsExact(s: State, ops: seq<Op>) {
    AdaptersFound(s, ops) && AliasesFound(s, ops) && NothingElseFound(s, ops) && FamilyKeys(s, ops)
  }

  lemma DistinctMembers(s: State, ops: seq<Op>, f: string)
    requires FamiliesExact(s, ops) && IdsExact(s, ops)
    ensures DistinctIds(FamilyList(s.byFamily, f))
  {
    hide Before;
    var list := FamilyList(s.byFamily, f);
    forall i, j | 0 <= i < j < |list| ensures list[i].id != list[j].id {
      assert list[i] in list && list[j] in list;
      if list[i] == list[j] {
        RankedIsDistinct(list, i, j);
      }
    }
  }

  lemma RegisterKeepsFamilies(s: State, ops: seq<Op>, a: Adapter)
    requires FamiliesExact(s, ops) && IdsExact(s, ops) && a.id !in s.byID
    ensures FamiliesExact(Registered(s, a), ops + [RegisterOp(a)])
  {
    hide Ranked, StableSort;
    var all := ops + [RegisterOp(a)];
    var next := Registered(s, a);
    forall f: string
      ensures Ranked(FamilyList(next.byFamily, f))
      ensures forall b :: b in FamilyList(next.byFamily, f) <==> RegisterOp(b) in all && b.family == f
    {
      var list := FamilyList(s.byFamily, f);
      var grown := if f == a.family then list + [a] else list;
      DistinctMembers(s, ops, f);
      forall i, j | 0 <= i < j < |grown| ensures grown[i].id != grown[j].id {
        assert grown[i] == list[i] && list[i] in list;
      }
      SortRanks(grown);
      if f in next.byFamily {
        assert FamilyList(next.byFamily, f) == StableSort(grown);
      } else {
        assert grown == [] && FamilyList(next.byFamily, f) == [];
        EmptyRanked();
      }
    }
  }

  lemma EmptyRanked()
    ensures Ranked([])
  {
  }

  lemma MoreOps(ops: seq<Op>, op: Op, name: string)
    ensures IsRegistered(ops + [op], name) <==> IsRegistered(ops, name) || (op.RegisterOp? && op.adapter.id == name)
    ensures IsAlias(ops + [op], name) <==> IsAlias(ops, name) || (op.AliasOp? && op.alias == name)
    ensures HasFamily(ops + [op], name) <==> HasFamily(ops, name) || (op.RegisterOp? && op.adapter.family == name)
  {
    var all := ops + [op];
    assert op in all && forall o | o in ops :: o in all;
    if op.RegisterOp? && op.adapter.id == name {
      assert RegisterOp(op.adapter) in all;
    }
    if op.RegisterOp? && op.adapter.family == name {
      assert RegisterOp(op.adapter) in all;
    }
    if op.AliasOp? && op.alias == name {
      assert AliasOp(name, op.canonical) in all;
    }
    if a :| RegisterOp(a) in ops && a.id == name {
      assert RegisterOp(a) in all;
    }
    if a :| RegisterOp(a) in ops && a.family == name {
      assert RegisterOp(a) in all;
    }
    if c :| AliasOp(name, c) in ops {
      assert AliasOp(name, c) in all;
    }
  }

  lemma StepKeepsIds(s: State, ops: seq<Op>, op: Op)
    requires IdsExact(s, ops) && Step(s, op).Some?
    ensures IdsExact(Step(s, op).value, ops + [op])
  {
    hide StableSort, IsRegistered, IsAlias, HasFamily;
    var next := Step(s, op).value;
    forall id | id in next.byID ensures IsRegistered(ops + [op], id) || IsAlias(ops + [op], id) {
      MoreOps(ops, op, id);
    }
    forall f: string ensures f in next.byFamily <==> HasFamily(ops + [op], f) {
      MoreOps(ops, op, f);
    }
  }

  lemma StepKeepsFamilies(s: State, ops: seq<Op>, op: Op)
    requires FamiliesExact(s, ops) && IdsExact(s, ops) && Step(s, op).Some?
    ensures FamiliesExact(Step(s, op).value, ops + [op])
  {
    hide FamiliesExact, IdsExact, Registered;
    match op
    case RegisterOp(a) => RegisterKeepsFamilies(s, ops, a);
    case AliasOp(alias, canonical) => AliasKeepsFamilies(s, ops, alias, canonical);
  }

  /** A run is its last operation after a shorter run. */
  lemma RunStep(ops: seq<Op>) returns (before: seq<Op>, op: Op)
    requires ops != [] && Run(ops).Some?
    ensures ops == before + [op] && |before| < |ops|
    ensures op in ops && forall o | o in before :: o in ops
    ensures Run(before).Some? && Step(Run(before).value, op) == Run(ops)
  {
    hide Step;
    before, op := ops[..|ops| - 1], ops[|ops| - 1];
  }

  /** After every panic-free run the lookup tables say exactly what was registered, each family strictly ranked. */
  lemma {:induction false} RunIsExact(ops: seq<Op>)
    requires Run(ops).Some?
    ensures FamiliesExact(Run(ops).value, ops)
    ensures IdsExact(Run(ops).value, ops)
    decreases |ops|
  {
    if ops == [] {
      EmptyRanked();
    } else {
      hide FamiliesExact, IdsExact, Step, Run;
      var before, op := RunStep(ops);
      RunIsExact(before);
      StepKeepsFamilies(Run(before).value, before, op);
      StepKeepsIds(Run(before).value, before, op);
    }
  }

  lemma AliasKeepsFamilies(s: State, ops: seq<Op>, alias: string, canonical: string)
    requires FamiliesExact(s, ops) && canonical in s.byID
    ensures FamiliesExact(s.(byID := s.byID[alias := s.byID[canonical]]), ops + [AliasOp(alias, canonical)])
  {
    hide Ranked;
    var next := s.(byID := s.byID[alias := s.byID[canonical]]);
    var all := ops + [AliasOp(alias, canonical)];
    forall f: string
      ensures Ranked(FamilyList(next.byFamily, f))
      ensures forall a :: a in FamilyList(next.byFamily, f) <==> RegisterOp(a) in all && a.family == f
    {
      assert next.byFamily == s.byFamily;
    }
  }

  // ---------- the order of registration does not matter ----------

  ghost predicate Agrees(ids: map<string, Adapter>, other: map<string, Adapter>) {
    forall id | id in ids :: id in other && other[id] == ids[id]
  }

  lemma StepAgrees(s: State, op: Op, other: State, others: seq<Op>)
    requires Step(s, op).Some? && IdsExact(other, others) && op in others
    requires Agrees(s.byID, other.byID)
    ensures Agrees(Step(s, op).value.byID, other.byID)
  {
    hide NothingElseFound, FamilyKeys, SortedFamilies;
  }

  /** Everything one run's id table says, the other run's says too. */
  lemma {:induction false} IdsAgree(ops: seq<Op>, other: State, others: seq<Op>)
    requires Run(ops).Some? && IdsExact(other, others)
    requires forall op | op in ops :: op in others
    ensures Agrees(Run(ops).value.byID, other.byID)
    decreases |ops|
  {
    if ops != [] {
      hide IdsExact, Step, Agrees, Run;
      var before, op := RunStep(ops);
      IdsAgree(before, other, others);
      StepAgrees(Run(before).value, op, other, others);
    } else {
      assert Run(ops).value.byID == map[];
    }
  }

  /**
   Two panic-free runs of the same operations, in whatever order, leave the same tables:
   every family list and every id or alias is identical.
   */
  lemma RegistrationOrderIrrelevant(ops: seq<Op>, others: seq<Op>)
    requires Run(ops).Some? && Run(others).Some?
    requires forall op :: op in ops <==> op in others
    ensures Run(ops).value.byFamily == Run(others).value.byFamily
    ensures Run(ops).value.byID == Run(others).value.byID
  {
    hide Run, Ranked;
    var s, t := Run(ops).value, Run(others).value;
    RunIsExact(ops);
    RunIsExact(others);
    IdsAgree(ops, t, others);
    IdsAgree(others, s, ops);
    assert s.byID.Keys == t.byID.Keys;
    forall f: string ensures FamilyList(s.byFamily, f) == FamilyList(t.byFamily, f) {
      RankedIsUnique(FamilyList(s.byFamily, f), FamilyList(t.byFamily, f));
    }
    FamilyKeysAgree(s, ops, t, others);
    forall f | f in s.byFamily ensures s.byFamily[f] == t.byFamily[f] {
      assert FamilyList(s.byFamily, f) == FamilyList(t.byFamily, f);
    }
  }

  lemma FamilyKeysAgree(s: State, ops: seq<Op>, t: State, others: seq<Op>)
    requires IdsExact(s, ops) && IdsExact(t, others)
    requires forall op :: op in ops <==> op in others
    ensures s.byFamily.Keys == t.byFamily.Keys
  {
    hide AdaptersFound, AliasesFound, NothingElseFound;
    forall f: string ensures f in s.byFamily <==> f in t.byFamily {
      if a :| RegisterOp(a) in ops && a.family == f {
        assert RegisterOp(a) in others;
      }
      if a :| RegisterOp(a) in others && a.family == f {
        assert RegisterOp(a) in ops;
      }
    }
  }

  // ---------- which runs panic ----------

  /** An adapter or an alias was given this name. */
  ghost predicate Named(ops: seq<Op>, id: string) {
    IsRegistered(ops, id) || IsAlias(ops, id)
  }

  /** A registration takes a new name; an alias takes a new name for an old one. */
  ghost predicate Admissible(ops: seq<Op>, k: nat)
    requires k < |ops|
  {
    match ops[k]
    case RegisterOp(a) => !Named(ops[..k], a.id)
    case AliasOp(alias, canonical) => !Named(ops[..k], alias) && Named(ops[..k], canonical)
  }

  lemma NamesFound(ops: seq<Op>, id: string)
    requires Run(ops).Some?
    ensures id in Run(ops).value.byID <==> Named(ops, id)
  {
    hide Run, FamiliesExact, FamilyKeys, Before;
    RunIsExact(ops);
    var s := Run(ops).value;
    if a :| RegisterOp(a) in ops && a.id == id {
      assert AdaptersFound(s, ops);
    }
    if c :| AliasOp(id, c) in ops {
      assert AliasesFound(s, ops);
    }
  }

  ghost predicate AllAdmissible(ops: seq<Op>) {
    forall k: nat | k < |ops| :: Admissible(ops, k)
  }

  /** A run panics exactly when some operation reuses a name, or names an unknown adapter. */
  lemma {:induction false} RunSucceedsExactly(ops: seq<Op>)
    ensures Run(ops).Some? <==> AllAdmissible(ops)
  {
    if ops != [] {
      hide AllAdmissible, Admissible, Step;
      RunSucceedsExactly(ops[..|ops| - 1]);
      AdmissibleLast(ops);
      if Run(ops[..|ops| - 1]).Some? {
        AdmissibleStep(ops);
      }
    }
  }

  lemma AdmissibleLast(ops: seq<Op>)
    requires ops != []
    ensures AllAdmissible(ops) <==> AllAdmissible(ops[..|ops| - 1]) && Admissible(ops, |ops| - 1)
  {
    hide Admissible;
    var n := |ops| - 1;
    forall k: nat | k < n ensures Admissible(ops[..n], k) == Admissible(ops, k) {
      AdmissibleBefore(ops, k);
    }
  }

  lemma AdmissibleBefore(ops: seq<Op>, k: nat)
    requires k < |ops| - 1
    ensures Admissible(ops[..|ops| - 1], k) == Admissible(ops, k)
  {
    hide Named;
    assert ops[..|ops| - 1][..k] == ops[..k];
  }

  lemma AdmissibleStep(ops: seq<Op>)
    requires ops != [] && Run(ops[..|ops| - 1]).Some?
    ensures Run(ops).Some? <==> Admissible(ops, |ops| - 1)
  {
    hide Named, Registered;
    var before := ops[..|ops| - 1];
    match ops[|ops| - 1]
    case RegisterOp(a) => NamesFound(before, a.id);
    case AliasOp(alias, canonical) =>
      NamesFound(before, alias);
      NamesFound(before, canonical);
  }
}
