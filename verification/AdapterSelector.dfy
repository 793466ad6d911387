/** Selecting the adapter for a connection, and what the auth ack reports about capabilities. */
module AdapterSelector {
  import opened Wrappers
  import opened Versions
  import opened Specificity
  import opened AdapterRegistry

  datatype SelectResult = SelectResult(adapter: Adapter, adapterID: string, degraded: bool, policy: DegradePolicy,
                                       missing: seq<string>)

  // ---------- compatibility of one adapter ----------

  function Missing(required: seq<string>, caps: seq<string>): (r: seq<string>)
    ensures forall c :: c in r <==> c in required && c !in caps
  {
    if required == [] then []
    else
      var n := |required| - 1;
      assert required == required[..n] + [required[n]];
      Missing(required[..n], caps) + if required[n] in caps then [] else [required[n]]
  }

  /** The required capabilities a client does not declare, in order. */
  method CheckCapabilities(required: seq<string>, caps: seq<string>) returns (missing: seq<string>)
    ensures missing == Missing(required, caps)
  {
    missing := [];
    if required == [] {
      return;
    }
    var capSet := set c | c in caps;
    var i := 0;
    while i < |required|
      invariant 0 <= i <= |required|
      invariant missing == Missing(required[..i], caps)
    {
      assert required[..i + 1][..i] == required[..i];
      if required[i] !in capSet {
        missing := missing + [required[i]];
      }
      i := i + 1;
    }
    assert required[..i] == required;
  }

  /** Exactly the required capabilities that are not declared, each as often as it is required, in order. */
  lemma {:induction false} MissingInOrder(before: seq<string>, c: string, after: seq<string>, caps: seq<string>)
    ensures Missing(before + [c] + after, caps)
            == Missing(before, caps) + (if c in caps then [] else [c]) + Missing(after, caps)
    decreases |after|
  {
    hide Missing;
    MissingLast(before, c, caps);
    if after == [] {
      assert before + [c] + after == before + [c];
      NothingMissing(caps);
    } else {
      var n := |after| - 1;
      assert before + [c] + after == before + [c] + after[..n] + [after[n]] && after == after[..n] + [after[n]];
      MissingInOrder(before, c, after[..n], caps);
      MissingLast(before + [c] + after[..n], after[n], caps);
      MissingLast(after[..n], after[n], caps);
    }
  }

  lemma NothingMissing(caps: seq<string>)
    ensures Missing([], caps) == []
  {
  }

  lemma MissingLast(required: seq<string>, c: string, caps: seq<string>)
    ensures Missing(required + [c], caps) == Missing(required, caps) + if c in caps then [] else [c]
  {
    assert (required + [c])[..|required|] == required;
  }

  /** The declared window rejects the host version; an unreadable window rejects nothing. */
  predicate OutOfRange(a: Adapter, meta: ClientMeta) {
    && a.meta.Some?
    && a.meta.value.versionRange != ""
    && meta.hostVersion != ""
    && Parse(a.meta.value.versionRange).Ok?
    && !Contains(Parse(a.meta.value.versionRange).value, meta.hostVersion)
  }

  function MissingFor(a: Adapter, meta: ClientMeta): seq<string> {
    if a.meta.None? then [] else Missing(a.meta.value.required, meta.capabilities)
  }

  function PolicyOf(a: Adapter, otherwise: DegradePolicy): DegradePolicy {
    if a.meta.None? then otherwise else a.meta.value.degrade
  }

  /** None: the adapter must be skipped. */
  function Compatibility(a: Adapter, meta: ClientMeta): Option<SelectResult> {
    if OutOfRange(a, meta) then None
    else
      var missing := MissingFor(a, meta);
      Some(SelectResult(a, a.id, missing != [], PolicyOf(a, DegradeNone), missing))
  }

  // ---------- selection ----------

  function FamilyOf(meta: ClientMeta): string {
    if meta.hostType != "" then meta.hostType else meta.clientType
  }

  function Hinted(byID: map<string, Adapter>, meta: ClientMeta): Option<SelectResult> {
    if meta.adapterHint == "" || meta.adapterHint !in byID then None
    else Compatibility(byID[meta.adapterHint], meta)
  }

  /** Supported and within its window. */
  predicate Usable(a: Adapter, meta: ClientMeta) {
    a.supports(meta) && !OutOfRange(a, meta)
  }

  predicate Full(a: Adapter, meta: ClientMeta) {
    Usable(a, meta) && MissingFor(a, meta) == []
  }

  /** The first adapter in the list with the given quality, or the list's length. */
  function FirstFull(list: seq<Adapter>, meta: ClientMeta): (i: nat)
    ensures i <= |list|
    ensures forall j | 0 <= j < i :: !Full(list[j], meta)
    ensures i < |list| ==> Full(list[i], meta)
  {
    hide Full;
    if list == [] || Full(list[0], meta) then 0 else 1 + FirstFull(list[1..], meta)
  }

  function FirstUsable(list: seq<Adapter>, meta: ClientMeta): (i: nat)
    ensures i <= |list|
    ensures forall j | 0 <= j < i :: !Usable(list[j], meta)
    ensures i < |list| ==> Usable(list[i], meta)
  {
    hide Usable;
    if list == [] || Usable(list[0], meta) then 0 else 1 + FirstUsable(list[1..], meta)
  }

  function Fallback(a: Adapter): SelectResult {
    SelectResult(a, a.id, true, PolicyOf(a, DegradeToBasic), [])
  }

  function SelectFromFamily(list: seq<Adapter>, meta: ClientMeta): Option<SelectResult> {
    if list == [] then None
    else if FirstFull(list, meta) < |list| then Compatibility(list[FirstFull(list, meta)], meta)
    else if FirstUsable(list, meta) < |list| then Compatibility(list[FirstUsable(list, meta)], meta)
    else Some(Fallback(list[|list| - 1]))
  }

  function Select(s: State, meta: ClientMeta): Option<SelectResult> {
    var hinted := Hinted(s.byID, meta);
    if hinted.Some? then hinted else SelectFromFamily(FamilyList(s.byFamily, FamilyOf(meta)), meta)
  }

  /** Honors a usable hint, else scans the family for the best full match, the best degraded one, or the last. */
  method SelectByMeta(registry: Registry, meta: ClientMeta) returns (selected: Option<SelectResult>)
    ensures selected == Select(registry.Value(), meta)
  {
    hide OutOfRange, MissingFor, FirstFull, FirstUsable;
    if meta.adapterHint != "" {
      var hinted := registry.LookupByID(meta.adapterHint);
      if hinted.Some? {
        var result := Compatibility(hinted.value, meta);
        if result.Some? {
          return result;
        }
      }
    }
    var adapters := registry.LookupByFamily(FamilyOf(meta));
    if |adapters| == 0 {
      return None;
    }
    var degraded: Option<SelectResult> := None;
    var i := 0;
    while i < |adapters|
      invariant 0 <= i <= |adapters|
      invariant forall j | 0 <= j < i :: !Full(adapters[j], meta)
      invariant degraded.None? ==> forall j | 0 <= j < i :: !Usable(adapters[j], meta)
      invariant degraded.Some? ==>
                && FirstUsable(adapters, meta) < i
                && degraded == Compatibility(adapters[FirstUsable(adapters, meta)], meta)
    {
      var a := adapters[i];
      i := i + 1;
      if !a.supports(meta) {
        continue;
      }
      var result := Compatibility(a, meta);
      if result.None? {
        continue;
      }
      if !result.value.degraded {
        FirstIs(adapters, meta, i - 1);
        return result;
      }
      if degraded.None? {
        FirstIs(adapters, meta, i - 1);
        degraded := result;
      }
    }
    if degraded.Some? {
      return degraded;
    }
    var fallback := adapters[|adapters| - 1];
    return Some(Fallback(fallback));
  }

  lemma FirstIs(list: seq<Adapter>, meta: ClientMeta, i: nat)
    requires i < |list|
    ensures Full(list[i], meta) && (forall j | 0 <= j < i :: !Full(list[j], meta)) ==> FirstFull(list, meta) == i
    ensures Usable(list[i], meta) && (forall j | 0 <= j < i :: !Usable(list[j], meta)) ==> FirstUsable(list, meta) == i
  {
  }

  // ---------- what selection means ----------

  /** The unique most specific adapter of a family with some quality. */
  ghost predicate MostSpecific(a: Adapter, ops: seq<Op>, family: string, good: Adapter -> bool) {
    && RegisterOp(a) in ops && a.family == family && good(a)
    && forall b | RegisterOp(b) in ops && b.family == family && good(b) && b != a :: Before(a, b)
  }

  /** The adapter every other one of the family outranks. */
  ghost predicate LeastSpecific(a: Adapter, ops: seq<Op>, family: string) {
    && RegisterOp(a) in ops && a.family == family
    && forall b | RegisterOp(b) in ops && b.family == family && b != a :: Before(b, a)
  }

  /** In a ranked list the first good adapter outranks every other good one. */
  lemma FirstIsMostSpecific(list: seq<Adapter>, ops: seq<Op>, family: string, good: Adapter -> bool, i: nat)
    requires Ranked(list) && i < |list| && good(list[i])
    requires forall j | 0 <= j < i :: !good(list[j])
    requires forall a :: a in list <==> RegisterOp(a) in ops && a.family == family
    ensures MostSpecific(list[i], ops, family, good)
  {
    hide Before;
    assert list[i] in list;
    forall b | RegisterOp(b) in ops && b.family == family && good(b) && b != list[i] ensures Before(list[i], b) {
      assert b in list;
      var j :| 0 <= j < |list| && list[j] == b;
    }
  }

  lemma LastIsLeastSpecific(list: seq<Adapter>, ops: seq<Op>, family: string)
    requires Ranked(list) && list != []
    requires forall a :: a in list <==> RegisterOp(a) in ops && a.family == family
    ensures LeastSpecific(list[|list| - 1], ops, family)
  {
    hide Before;
    var last := list[|list| - 1];
    assert last in list;
    forall b | RegisterOp(b) in ops && b.family == family && b != last ensures Before(b, last) {
      assert b in list;
      var j :| 0 <= j < |list| && list[j] == b;
    }
  }

  /**
   Which adapters can serve a client: those that support it and, if it names its version, whose declared window
   accepts that version; an unreadable window is no obstacle. In full: those that also miss no capability.
   */
  lemma UsableMeaning(a: Adapter, meta: ClientMeta)
    ensures Usable(a, meta) <==>
            && a.supports(meta)
            && (meta.hostVersion != "" ==> Contains(Window(a), meta.hostVersion))
    ensures Full(a, meta) <==>
            && Usable(a, meta)
            && forall c | c in RequiredOf(a) :: c in meta.capabilities
  {
    hide Compare;
    EmptyText();
    if a.meta.Some? {
      assert MissingFor(a, meta) == [] <==> forall c :: c !in MissingFor(a, meta) by {
        FirstIsMember(MissingFor(a, meta));
      }
    }
  }

  /** Some adapter of the family was registered and has the quality. */
  ghost predicate Offers(ops: seq<Op>, family: string, good: Adapter -> bool) {
    exists a :: RegisterOp(a) in ops && a.family == family && good(a)
  }

  /**
   Without a usable hint, after any panic-free run: nothing for an unknown family; else the most
   specific adapter that is supported, in range and missing nothing, if the family has one; else the
   most specific that is supported and in range, degraded; else the family's most generic adapter, degraded.
   */
  lemma SelectionMeaning(ops: seq<Op>, meta: ClientMeta)
    requires Run(ops).Some? && Hinted(Run(ops).value.byID, meta).None?
    ensures
      var selected := Select(Run(ops).value, meta);
      var family := if meta.hostType != "" then meta.hostType else meta.clientType;
      if !Offers(ops, family, a => true) then selected.None?
      else
        && selected.Some?
        && selected.value.adapterID == selected.value.adapter.id
        && selected.value.policy ==
           (if selected.value.adapter.meta.Some? then selected.value.adapter.meta.value.degrade
            else if Offers(ops, family, a => Usable(a, meta)) then DegradeNone
            else DegradeToBasic)
        && if Offers(ops, family, a => Full(a, meta)) then
             && MostSpecific(selected.value.adapter, ops, family, a => Full(a, meta))
             && !selected.value.degraded && selected.value.missing == []
           else if Offers(ops, family, a => Usable(a, meta)) then
             && MostSpecific(selected.value.adapter, ops, family, a => Usable(a, meta))
             && selected.value.degraded && selected.value.missing == MissingFor(selected.value.adapter, meta) != []
           else
             && LeastSpecific(selected.value.adapter, ops, family)
             && selected.value.degraded && selected.value.missing == []
  {
    hide Run, Ranked, Usable, OutOfRange, MissingFor;
    UsableIsCompatible(meta);
    RunIsExact(ops);
    var family := FamilyOf(meta);
    var list := FamilyList(Run(ops).value.byFamily, family);
    assert forall a :: a in list <==> RegisterOp(a) in ops && a.family == family;
    if list != [] {
      assert list[0] in list;
      var full, usable := FirstFull(list, meta), FirstUsable(list, meta);
      NoneOffered(list, ops, family, a => Full(a, meta), full);
      NoneOffered(list, ops, family, a => Usable(a, meta), usable);
      if full < |list| {
        FirstIsMostSpecific(list, ops, family, a => Full(a, meta), full);
      } else if usable < |list| {
        FirstIsMostSpecific(list, ops, family, a => Usable(a, meta), usable);
      } else {
        LastIsLeastSpecific(list, ops, family);
      }
    }
  }

  lemma NoneOffered(list: seq<Adapter>, ops: seq<Op>, family: string, good: Adapter -> bool, first: nat)
    requires first <= |list| && forall j | 0 <= j < first :: !good(list[j])
    requires first < |list| ==> good(list[first])
    requires forall a :: a in list <==> RegisterOp(a) in ops && a.family == family
    ensures Offers(ops, family, good) <==> first < |list|
  {
    if first < |list| {
      assert list[first] in list;
    } else {
      assert forall a | a in list :: !good(a);
    }
  }

  lemma UsableIsCompatible(meta: ClientMeta)
    ensures forall a | Usable(a, meta) :: !OutOfRange(a, meta)
  {
  }

  /**
   A hint that names an adapter, directly or by an alias, decides alone, whatever the adapter's family
   and whether it supports the client: only its version window can refuse it. An unknown hint is ignored.
   */
  lemma HintDecides(ops: seq<Op>, meta: ClientMeta)
    requires Run(ops).Some? && meta.adapterHint != ""
    ensures forall a | RegisterOp(a) in ops && (a.id == meta.adapterHint || AliasOp(meta.adapterHint, a.id) in ops) ::
              if OutOfRange(a, meta) then Hinted(Run(ops).value.byID, meta).None?
              else Select(Run(ops).value, meta) ==
                   Some(SelectResult(a, a.id, MissingFor(a, meta) != [],
                                     if a.meta.Some? then a.meta.value.degrade else DegradeNone, MissingFor(a, meta)))
    ensures !IsRegistered(ops, meta.adapterHint) && !IsAlias(ops, meta.adapterHint) ==>
            Hinted(Run(ops).value.byID, meta).None?
  {
    hide Run, Ranked, OutOfRange, MissingFor;
    RunIsExact(ops);
  }

  /** Selection does not depend on the order in which adapters and aliases were registered. */
  lemma SelectionIgnoresRegistrationOrder(ops: seq<Op>, others: seq<Op>, meta: ClientMeta)
    requires Run(ops).Some? && Run(others).Some?
    requires forall op :: op in ops <==> op in others
    ensures Select(Run(ops).value, meta) == Select(Run(others).value, meta)
  {
    hide Run, FirstFull, FirstUsable, Compatibility;
    RegistrationOrderIrrelevant(ops, others);
  }

  // ---------- the auth ack ----------

  const SEND_QUOTE := "session_send_quote_v1"

  datatype Ack = Ack(supported: seq<string>, degraded: seq<string>, unsupported: seq<string>)

  datatype Standing = Supported | Degraded | Unsupported

  predicate Known(meta: AdapterMeta, c: string) {
    c == SEND_QUOTE || c in meta.required || c in meta.optional
  }

  function StandingOf(declared: AdapterMeta, missing: seq<string>, c: string): Standing {
    if c in missing then Degraded else if Known(declared, c) then Supported else Unsupported
  }

  /** The capabilities of one standing, in order. */
  function Those(caps: seq<string>, declared: AdapterMeta, missing: seq<string>, standing: Standing): (r: seq<string>)
    ensures forall c :: c in r <==> c in caps && StandingOf(declared, missing, c) == standing
  {
    if caps == [] then []
    else
      var n := |caps| - 1;
      assert caps == caps[..n] + [caps[n]];
      var before := Those(caps[..n], declared, missing, standing);
      if StandingOf(declared, missing, caps[n]) == standing then before + [caps[n]] else before
  }

  /** Appends the missing capabilities that are not listed yet. */
  function WithMissing(degraded: seq<string>, missing: seq<string>): seq<string> {
    if missing == [] then degraded
    else
      var n := |missing| - 1;
      var before := WithMissing(degraded, missing[..n]);
      if missing[n] in before then before else before + [missing[n]]
  }

  function AckOf(selected: Option<SelectResult>, meta: ClientMeta): Ack {
    if meta.capabilities == [] then Ack([], [], [])
    else if selected.None? then Ack([], [], meta.capabilities)
    else if selected.value.adapter.meta.None? then Ack(meta.capabilities, [], [])
    else
      var caps, declared, missing := meta.capabilities, selected.value.adapter.meta.value, selected.value.missing;
      Ack(Those(caps, declared, missing, Supported),
          WithMissing(Those(caps, declared, missing, Degraded), missing),
          Those(caps, declared, missing, Unsupported))
  }

  lemma WithMissingStep(degraded: seq<string>, missing: seq<string>, i: nat)
    requires i < |missing|
    ensures WithMissing(degraded, missing[..i + 1]) ==
            var before := WithMissing(degraded, missing[..i]);
            if missing[i] in before then before else before + [missing[i]]
  {
    assert missing[..i + 1][..i] == missing[..i];
  }

  /** Sorts the client's capabilities into supported, degraded and unsupported ones. */
  method ClassifyCapabilities(selected: Option<SelectResult>, meta: ClientMeta) returns (ack: Ack)
    ensures ack == AckOf(selected, meta)
  {
    var caps := meta.capabilities;
    if caps == [] {
      return Ack([], [], []);
    }
    if selected.None? {
      return Ack([], [], caps);
    }
    if selected.value.adapter.meta.None? {
      return Ack(caps, [], []);
    }
    var declared, missing := selected.value.adapter.meta.value, selected.value.missing;
    var supportedSet := {SEND_QUOTE} + (set c | c in declared.required) + (set c | c in declared.optional);
    var missingSet := set c | c in missing;
    var supported, degraded, unsupported := [], [], [];
    var i := 0;
    while i < |caps|
      invariant 0 <= i <= |caps|
      invariant supported == Those(caps[..i], declared, missing, Supported)
      invariant degraded == Those(caps[..i], declared, missing, Degraded)
      invariant unsupported == Those(caps[..i], declared, missing, Unsupported)
    {
      var c := caps[i];
      assert caps[..i + 1][..i] == caps[..i];
      if c in missingSet {
        degraded := degraded + [c];
      } else if c in supportedSet {
        supported := supported + [c];
      } else {
        unsupported := unsupported + [c];
      }
      i := i + 1;
    }
    assert caps[..i] == caps;
    ghost var own := degraded;
    i := 0;
    while i < |missing|
      invariant 0 <= i <= |missing|
      invariant degraded == WithMissing(own, missing[..i])
    {
      WithMissingStep(own, missing, i);
      if missing[i] in missingSet && missing[i] !in degraded {
        degraded := degraded + [missing[i]];
      }
      i := i + 1;
    }
    assert missing[..i] == missing;
    return Ack(supported, degraded, unsupported);
  }

  lemma {:induction false} StandingsSplit(caps: seq<string>, declared: AdapterMeta, missing: seq<string>)
    ensures multiset(Those(caps, declared, missing, Supported))
            + multiset(Those(caps, declared, missing, Degraded))
            + multiset(Those(caps, declared, missing, Unsupported)) == multiset(caps)
  {
    if caps != [] {
      hide Known;
      var n := |caps| - 1;
      assert caps == caps[..n] + [caps[n]];
      StandingsSplit(caps[..n], declared, missing);
    }
  }

  lemma FirstIsMember(list: seq<string>)
    ensures list == [] || list[0] in list
  {
  }

  lemma {:induction false} WithMissingMembers(degraded: seq<string>, missing: seq<string>, c: string)
    ensures c in WithMissing(degraded, missing) <==> c in degraded || c in missing
  {
    if missing != [] {
      assert missing == missing[..|missing| - 1] + [missing[|missing| - 1]];
      WithMissingMembers(degraded, missing[..|missing| - 1], c);
    }
  }

  lemma {:induction false} WithMissingDistinct(missing: seq<string>)
    ensures forall i, j | 0 <= i < j < |WithMissing([], missing)| ::
            WithMissing([], missing)[i] != WithMissing([], missing)[j]
  {
    if missing != [] {
      WithMissingDistinct(missing[..|missing| - 1]);
    }
  }

  lemma {:induction false} WithMissingAll(degraded: seq<string>, missing: seq<string>)
    requires forall i, j | 0 <= i < j < |missing| :: missing[i] != missing[j]
    requires forall c | c in missing :: c !in degraded
    ensures WithMissing(degraded, missing) == degraded + missing
  {
    if missing != [] {
      var n := |missing| - 1;
      assert missing[n] in missing && missing[n] !in missing[..n];
      WithMissingAll(degraded, missing[..n]);
      assert missing == missing[..n] + [missing[n]];
    }
  }

  /** The lists keep the order: of the client's capabilities, and of the adapter's when it lists each one once. */
  lemma AckKeepsOrder(a: Adapter, meta: ClientMeta, before: seq<string>, c: string)
    requires a.meta.Some? && meta.capabilities == before + [c] && Compatibility(a, meta).Some?
    ensures
      var missing := Compatibility(a, meta).value.missing;
      var ack, declared := AckOf(Compatibility(a, meta), meta), a.meta.value;
      && ack.supported == Those(before, declared, missing, Supported)
                          + (if StandingOf(declared, missing, c) == Supported then [c] else [])
      && ack.unsupported == Those(before, declared, missing, Unsupported)
                            + (if StandingOf(declared, missing, c) == Unsupported then [c] else [])
      && ((forall i, j | 0 <= i < j < |missing| :: missing[i] != missing[j]) ==> ack.degraded == missing)
  {
    hide OutOfRange, Known;
    var missing := Compatibility(a, meta).value.missing;
    assert (before + [c])[..|before|] == before;
    var own := Those(meta.capabilities, a.meta.value, missing, Degraded);
    FirstIsMember(own);
    if forall i, j | 0 <= i < j < |missing| :: missing[i] != missing[j] {
      WithMissingAll([], missing);
    }
  }

  /**
   For the result that selection computed from the same client: every declared capability is reported exactly once,
   as supported or as unsupported, and the degraded list holds no capability twice. It is the list of the missing ones
   exactly if the client declares something or the adapter requires nothing: a client without capabilities is told
   of none.
   */
  lemma AckPartitionsCapabilities(a: Adapter, meta: ClientMeta)
    requires a.meta.Some? && Compatibility(a, meta).Some?
    ensures
      var ack := AckOf(Compatibility(a, meta), meta);
      && multiset(ack.supported) + multiset(ack.unsupported) == multiset(meta.capabilities)
      && (forall c ::
            c in ack.supported <==>
            && c in meta.capabilities
            && (c == "session_send_quote_v1" || c in a.meta.value.required || c in a.meta.value.optional))
      && (forall i, j | 0 <= i < j < |ack.degraded| :: ack.degraded[i] != ack.degraded[j])
      && ((forall c :: c in ack.degraded <==> c in a.meta.value.required && c !in meta.capabilities)
          <==> meta.capabilities != [] || a.meta.value.required == [])
      && (meta.capabilities == [] ==> ack.degraded == [])
  {
    if meta.capabilities == [] {
      if a.meta.value.required != [] {
        FirstIsMember(a.meta.value.required);
        assert a.meta.value.required[0] in a.meta.value.required;
      }
    } else {
      AckOfDeclared(a, meta);
    }
  }

  /** The same for a client that declares capabilities. */
  lemma AckOfDeclared(a: Adapter, meta: ClientMeta)
    requires a.meta.Some? && meta.capabilities != [] && Compatibility(a, meta).Some?
    ensures
      var ack := AckOf(Compatibility(a, meta), meta);
      && multiset(ack.supported) + multiset(ack.unsupported) == multiset(meta.capabilities)
      && (forall c :: c in ack.supported <==> c in meta.capabilities && Known(a.meta.value, c))
      && (forall c :: c in ack.degraded <==> c in a.meta.value.required && c !in meta.capabilities)
      && (forall i, j | 0 <= i < j < |ack.degraded| :: ack.degraded[i] != ack.degraded[j])
  {
    hide Known, OutOfRange;
    var selected := Compatibility(a, meta);
    var caps, declared, missing := meta.capabilities, a.meta.value, selected.value.missing;
    var ack := AckOf(selected, meta);
    StandingsSplit(caps, declared, missing);
    var own := Those(caps, declared, missing, Degraded);
    FirstIsMember(own);
    forall c ensures c in ack.degraded <==> c in declared.required && c !in meta.capabilities {
      WithMissingMembers([], missing, c);
    }
    WithMissingDistinct(missing);
  }
}
