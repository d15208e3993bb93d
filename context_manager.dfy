/**
 * The flexibility context manager: which personalization changes apply in
 * the running session, which context definitions are active, and how a
 * context object is prepared for the layered repository.
 *
 * The context providers' asynchronous `getValue` call, the URL parameter
 * reader and the foreign defaults for a new context object are inputs.
 */
module ContextManager {
  import opened Wrappers
  import opened Js

  /** A flexibility change; only its optional context tag matters here. */
  datatype Change = Change(context: Option<string>)

  /** One predicate `values[selector] <operator> value` of a context definition. */
  datatype ContextParameter = ContextParameter(selector: string, operator: string, value: Value)

  /** A named runtime condition: active when all of its parameters hold. */
  datatype ContextDefinition = ContextDefinition(id: string, parameters: seq<ContextParameter>)

  /** What the context providers report: selector name to current value. */
  type ProviderValues = map<string, Value>

  /** How the providers' promise settles. */
  datatype ProviderReply = Resolved(values: ProviderValues) | Rejected(reason: string)

  // ---------------------------------------------------------------------
  // doesContextMatch

  /**
   * A change without a context tag always applies; a tagged change applies
   * exactly when the list of active context ids is present and holds the tag.
   */
  function DoesContextMatch(change: Change, activeIds: Option<seq<string>>): (r: bool)
    ensures !Truthy(change.context) ==> r
    ensures Truthy(change.context) ==>
              (r <==> activeIds.Some? && change.context.value in activeIds.value)
  {
    var s := OrElse(change.context, "");
    if s == "" then true
    else activeIds.Some? && IndexOf(activeIds.value, s) != -1
  }

  // ---------------------------------------------------------------------
  // _getContextIdsFromUrl

  /**
   * The context ids named by the design-time URL parameter
   * `sap-ui-flexDesignTimeContext`: none when the parameter is absent or
   * empty, otherwise its comma-separated pieces, which are never an empty
   * list, contain no comma and join back to the parameter.
   */
  function ContextIdsFromUrl(parameter: Option<string>): (ids: seq<string>)
    ensures ids == [] <==> !Truthy(parameter)
    ensures Truthy(parameter) ==> Join(ids, ',') == parameter.value
    ensures forall k :: 0 <= k < |ids| ==> ',' !in ids[k]
  {
    if !Truthy(parameter) then []
    else
      JoinSplit(parameter.value, ',');
      SplitPiecesAvoidSeparator(parameter.value, ',');
      Split(parameter.value, ',')
  }

  /** Any non-empty list of comma-free ids can be passed through the URL parameter. */
  lemma UrlIdsRoundTrip(ids: seq<string>)
    requires |ids| >= 1 && Join(ids, ',') != ""
    requires forall k :: 0 <= k < |ids| ==> ',' !in ids[k]
    ensures ContextIdsFromUrl(Some(Join(ids, ','))) == ids
  {
    SplitJoin(ids, ',');
  }

  // ---------------------------------------------------------------------
  // _checkEquals and _checkContextParameter

  /** `values[selector]`: a selector the providers did not report reads as undefined. */
  function Lookup(values: ProviderValues, selector: string): Value {
    if selector in values then values[selector] else Undefined
  }

  /** `values[selector] === value`. */
  function CheckEquals(selector: string, value: Value, values: ProviderValues): (r: bool)
    ensures selector !in values ==> (r <==> value == Undefined)
    ensures selector in values ==> (r <==> values[selector] == value && !value.NaN?)
  {
    StrictEquals(Lookup(values, selector), value)
  }

  /**
   * "EQ" holds when the reported value strictly equals the parameter's
   * value, "NE" when it does not; any other operator never holds (the
   * source logs it and carries on).
   */
  function CheckContextParameter(p: ContextParameter, values: ProviderValues): (r: bool)
    ensures p.operator == "EQ" ==> (r <==> Lookup(values, p.selector) == p.value && !p.value.NaN?)
    ensures p.operator == "NE" ==> (r <==> !(Lookup(values, p.selector) == p.value && !p.value.NaN?))
    ensures p.operator != "EQ" && p.operator != "NE" ==> !r
  {
    if p.operator == "EQ" then CheckEquals(p.selector, p.value, values)
    else if p.operator == "NE" then !CheckEquals(p.selector, p.value, values)
    else false
  }

  /** "NE" is exactly the negation of "EQ" on the same selector and value. */
  lemma NotEqualNegatesEqual(p: ContextParameter, values: ProviderValues)
    requires p.operator == "EQ"
    ensures CheckContextParameter(p.(operator := "NE"), values) == !CheckContextParameter(p, values)
  {
  }

  // ---------------------------------------------------------------------
  // _isContextObjectActive

  /** A definition is active when every one of its parameters holds. */
  predicate IsActive(def: ContextDefinition, values: ProviderValues) {
    forall k :: 0 <= k < |def.parameters| ==> CheckContextParameter(def.parameters[k], values)
  }

  /**
   * The `every` loop with its running conjunction: it stops at the first
   * parameter that does not hold. A definition with no parameters is active.
   */
  method IsContextObjectActive(def: ContextDefinition, values: ProviderValues) returns (active: bool)
    ensures active == IsActive(def, values)
    ensures def.parameters == [] ==> active
  {
    var ps := def.parameters;
    active := true;
    var i := 0;
    while i < |ps| && active
      invariant 0 <= i <= |ps|
      invariant active <==> forall k :: 0 <= k < i ==> CheckContextParameter(ps[k], values)
    {
      active := active && CheckContextParameter(ps[i], values);
      i := i + 1;
    }
  }

  // ---------------------------------------------------------------------
  // _getActiveContextsByAPIParameters and _getActiveContextsByUrlParameters

  /** The two ways a definition can be selected. */
  datatype Selection =
    | ByParameters(values: ProviderValues)  // its parameters all hold
    | ByUrlIds(urlIds: seq<string>)         // its id is named in the URL

  predicate Selected(sel: Selection, def: ContextDefinition) {
    match sel
    case ByParameters(values) => IsActive(def, values)
    case ByUrlIds(urlIds) => def.id in urlIds
  }

  /** The ids of the selected definitions, in input order, duplicates kept. */
  function SelectedIds(defs: seq<ContextDefinition>, sel: Selection): seq<string>
    decreases |defs|
  {
    if defs == [] then []
    else
      var init := SelectedIds(defs[..|defs| - 1], sel);
      var last := defs[|defs| - 1];
      if Selected(sel, last) then init + [last.id] else init
  }

  /** The positions of the selected definitions. */
  function SelectedIndices(defs: seq<ContextDefinition>, sel: Selection): seq<nat>
    decreases |defs|
  {
    if defs == [] then []
    else
      var n := |defs| - 1;
      var init := SelectedIndices(defs[..n], sel);
      if Selected(sel, defs[n]) then init + [n] else init
  }

  /**
   * The selected positions increase, each is the position of a selected
   * definition, and every selected definition's position is among them.
   */
  lemma {:induction false} SelectedIndicesExact(defs: seq<ContextDefinition>, sel: Selection)
    ensures forall k :: 0 <= k < |SelectedIndices(defs, sel)| ==>
              SelectedIndices(defs, sel)[k] < |defs| && Selected(sel, defs[SelectedIndices(defs, sel)[k]])
    ensures forall k, l :: 0 <= k < l < |SelectedIndices(defs, sel)| ==>
              SelectedIndices(defs, sel)[k] < SelectedIndices(defs, sel)[l]
    ensures forall i :: 0 <= i < |defs| && Selected(sel, defs[i]) ==> i in SelectedIndices(defs, sel)
    decreases |defs|
  {
    if defs != [] {
      var n := |defs| - 1;
      var front := defs[..n];
      SelectedIndicesExact(front, sel);
      var idx := SelectedIndices(front, sel);
      assert forall k :: 0 <= k < |idx| ==> defs[idx[k]] == front[idx[k]];
      assert forall i :: 0 <= i < n ==> front[i] == defs[i];
    }
  }

  /**
   * The selected ids are exactly the ids at the selected positions: a
   * subsequence of the input ids, in input order, of precisely the
   * definitions the selection accepts.
   */
  lemma {:induction false} SelectedIdsAreSubsequence(defs: seq<ContextDefinition>, sel: Selection)
    ensures |SelectedIds(defs, sel)| == |SelectedIndices(defs, sel)|
    ensures forall k :: 0 <= k < |SelectedIds(defs, sel)| ==>
              SelectedIndices(defs, sel)[k] < |defs| &&
              SelectedIds(defs, sel)[k] == defs[SelectedIndices(defs, sel)[k]].id
    decreases |defs|
  {
    SelectedIndicesExact(defs, sel);
    if defs != [] {
      var n := |defs| - 1;
      var front := defs[..n];
      SelectedIdsAreSubsequence(front, sel);
      var ids, idx := SelectedIds(front, sel), SelectedIndices(front, sel);
      assert forall k :: 0 <= k < |idx| ==> defs[idx[k]] == front[idx[k]];
      if Selected(sel, defs[n]) {
        assert SelectedIds(defs, sel) == ids + [defs[n].id];
        assert SelectedIndices(defs, sel) == idx + [n];
      } else {
        assert SelectedIds(defs, sel) == ids;
        assert SelectedIndices(defs, sel) == idx;
      }
    }
  }

  /** An id is selected iff some definition carrying it is selected. */
  lemma SelectedIdsMembers(defs: seq<ContextDefinition>, sel: Selection, x: string)
    ensures x in SelectedIds(defs, sel) <==>
              exists i :: 0 <= i < |defs| && defs[i].id == x && Selected(sel, defs[i])
  {
    SelectedIdsAreSubsequence(defs, sel);
    SelectedIndicesExact(defs, sel);
    var ids, idx := SelectedIds(defs, sel), SelectedIndices(defs, sel);
    if x in ids {
      var k :| 0 <= k < |ids| && ids[k] == x;
      assert defs[idx[k]].id == x;
    }
    if exists i :: 0 <= i < |defs| && defs[i].id == x && Selected(sel, defs[i]) {
      var i :| 0 <= i < |defs| && defs[i].id == x && Selected(sel, defs[i]);
      var k :| 0 <= k < |idx| && idx[k] == i;
      assert ids[k] == x;
    }
  }

  /** When every definition is selected the result is every id, duplicates included. */
  lemma {:induction false} AllSelectedKeepsEveryId(defs: seq<ContextDefinition>, sel: Selection)
    requires forall i :: 0 <= i < |defs| ==> Selected(sel, defs[i])
    ensures SelectedIds(defs, sel) == seq(|defs|, i requires 0 <= i < |defs| => defs[i].id)
    decreases |defs|
  {
    if defs != [] {
      var n := |defs| - 1;
      assert forall i :: 0 <= i < n ==> defs[..n][i] == defs[i];
      AllSelectedKeepsEveryId(defs[..n], sel);
    }
  }

  /** `_getActiveContextsByAPIParameters`: the ids of the active definitions. */
  method ActiveContextsByApiParameters(defs: seq<ContextDefinition>, values: ProviderValues)
    returns (ids: seq<string>)
    ensures ids == SelectedIds(defs, ByParameters(values))
  {
    ids := [];
    var i := 0;
    while i < |defs|
      invariant 0 <= i <= |defs|
      invariant ids == SelectedIds(defs[..i], ByParameters(values))
    {
      assert defs[..i + 1][..i] == defs[..i];
      var active := IsContextObjectActive(defs[i], values);
      if active {
        ids := ids + [defs[i].id];
      }
      i := i + 1;
    }
    assert defs[..i] == defs;
  }

  /** `_getActiveContextsByUrlParameters`: the ids of the definitions named in the URL. */
  method ActiveContextsByUrlParameters(defs: seq<ContextDefinition>, urlIds: seq<string>)
    returns (ids: seq<string>)
    ensures ids == SelectedIds(defs, ByUrlIds(urlIds))
  {
    ids := [];
    var i := 0;
    while i < |defs|
      invariant 0 <= i <= |defs|
      invariant ids == SelectedIds(defs[..i], ByUrlIds(urlIds))
    {
      assert defs[..i + 1][..i] == defs[..i];
      var named := IndexOf(urlIds, defs[i].id) != -1;
      if named {
        ids := ids + [defs[i].id];
      }
      i := i + 1;
    }
    assert defs[..i] == defs;
  }

  // ---------------------------------------------------------------------
  // _getContextParametersFromAPI: the selectors handed to the providers

  /** The selectors of a parameter list, in order. */
  function Selectors(ps: seq<ContextParameter>): (r: seq<string>)
    ensures |r| == |ps|
    decreases |ps|
  {
    if ps == [] then [] else Selectors(ps[..|ps| - 1]) + [ps[|ps| - 1].selector]
  }

  lemma {:induction false} SelectorsAt(ps: seq<ContextParameter>, j: nat)
    requires j < |ps|
    ensures Selectors(ps)[j] == ps[j].selector
    decreases |ps|
  {
    if j < |ps| - 1 {
      SelectorsAt(ps[..|ps| - 1], j);
    }
  }

  /** Every selector of every definition, in the order the nested loops visit them. */
  function AllSelectors(defs: seq<ContextDefinition>): seq<string>
    decreases |defs|
  {
    if defs == [] then []
    else AllSelectors(defs[..|defs| - 1]) + Selectors(defs[|defs| - 1].parameters)
  }

  /** Some parameter of some definition uses `s` as its selector. */
  predicate Referenced(defs: seq<ContextDefinition>, s: string) {
    exists i, j :: 0 <= i < |defs| && 0 <= j < |defs[i].parameters| && defs[i].parameters[j].selector == s
  }

  lemma {:induction false} AllSelectorsReferenced(defs: seq<ContextDefinition>, s: string)
    ensures s in AllSelectors(defs) <==> Referenced(defs, s)
    decreases |defs|
  {
    if defs != [] {
      var n := |defs| - 1;
      var front := defs[..n];
      AllSelectorsReferenced(front, s);
      var ps := defs[n].parameters;
      if s in Selectors(ps) {
        var j :| 0 <= j < |ps| && Selectors(ps)[j] == s;
        SelectorsAt(ps, j);
        assert defs[n].parameters[j].selector == s;
      }
      if Referenced(front, s) {
        var i, j :| 0 <= i < |front| && 0 <= j < |front[i].parameters| && front[i].parameters[j].selector == s;
        assert defs[i].parameters[j].selector == s;
      }
      if Referenced(defs, s) {
        var i, j :| 0 <= i < |defs| && 0 <= j < |defs[i].parameters| && defs[i].parameters[j].selector == s;
        if i < n {
          assert front[i].parameters[j].selector == s;
        } else {
          SelectorsAt(ps, j);
        }
      }
    }
  }

  predicate NoDuplicates(xs: seq<string>) {
    forall i, j :: 0 <= i < j < |xs| ==> xs[i] != xs[j]
  }

  /** `d` lists its elements in the order of their first occurrence in `xs`. */
  predicate FirstSeenOrder(xs: seq<string>, d: seq<string>) {
    forall i, j :: 0 <= i < j < |d| ==> IndexOf(xs, d[i]) < IndexOf(xs, d[j])
  }

  /** `xs` with every repeated element dropped: `if (r.indexOf(s) === -1) r.push(s)`. */
  function Distinct(xs: seq<string>): seq<string>
    decreases |xs|
  {
    if xs == [] then []
    else
      var n := |xs| - 1;
      var init := Distinct(xs[..n]);
      if IndexOf(init, xs[n]) == -1 then init + [xs[n]] else init
  }

  /** `Distinct` has no duplicates and exactly the elements of its input. */
  lemma {:induction false} DistinctElements(xs: seq<string>)
    ensures NoDuplicates(Distinct(xs))
    ensures forall x :: x in Distinct(xs) <==> x in xs
    decreases |xs|
  {
    if xs != [] {
      var n := |xs| - 1;
      DistinctElements(xs[..n]);
      assert xs == xs[..n] + [xs[n]];
    }
  }

  /** `Distinct` keeps the first-seen order of its input. */
  lemma {:induction false} DistinctFirstSeen(xs: seq<string>)
    ensures FirstSeenOrder(xs, Distinct(xs))
    decreases |xs|
  {
    if xs != [] {
      var n := |xs| - 1;
      var front, last := xs[..n], xs[n];
      var init := Distinct(front);
      assert xs == front + [last];
      DistinctElements(front);
      DistinctFirstSeen(front);
      forall x | x in init
        ensures IndexOf(xs, x) == IndexOf(front, x) < n
      {
        IndexOfPrefix(front, [last], x);
      }
      if last !in init {
        IndexOfAfter(front, last);
      }
    }
  }

  /** Two lists without duplicates, with the same elements in first-seen order, are equal. */
  lemma {:induction false} FirstSeenOrderUnique(xs: seq<string>, d: seq<string>)
    requires NoDuplicates(d) && FirstSeenOrder(xs, d)
    requires forall x :: x in d <==> x in xs
    ensures d == Distinct(xs)
  {
    var e := Distinct(xs);
    DistinctElements(xs);
    DistinctFirstSeen(xs);
    SortedDistinctEqual(xs, d, e);
  }

  /** In a list kept in first-seen order, the head comes first in `xs`. */
  lemma HeadSeenFirst(xs: seq<string>, d: seq<string>, x: string)
    requires FirstSeenOrder(xs, d) && x in d
    ensures IndexOf(xs, d[0]) <= IndexOf(xs, x)
  {
    var k :| 0 <= k < |d| && d[k] == x;
    if k > 0 {
      assert IndexOf(xs, d[0]) < IndexOf(xs, d[k]);
    }
  }

  /** In a list kept in first-seen order, the tail holds everything but the head. */
  lemma TailMembers(xs: seq<string>, d: seq<string>, x: string)
    requires FirstSeenOrder(xs, d) && d != []
    ensures x in d[1..] <==> x in d && x != d[0]
  {
    if x in d[1..] {
      var k :| 0 <= k < |d[1..]| && d[1..][k] == x;
      assert IndexOf(xs, d[0]) < IndexOf(xs, d[k + 1]);
    }
    if x in d && x != d[0] {
      var k :| 0 <= k < |d| && d[k] == x;
      assert d[1..][k - 1] == x;
    }
  }

  /**
   * A non-empty list holds its head. Called where the list must be empty,
   * so that no index into it is checked there.
   */
  lemma HeadIsMember(e: seq<string>)
    ensures e != [] ==> e[0] in e
  {
  }

  /** Helper: two lists in first-seen order with the same elements of `xs` are equal. */
  lemma {:induction false} SortedDistinctEqual(xs: seq<string>, d: seq<string>, e: seq<string>)
    requires FirstSeenOrder(xs, d) && FirstSeenOrder(xs, e)
    requires forall x :: x in d <==> x in e
    requires forall x :: x in d ==> x in xs
    ensures d == e
    decreases |d|
  {
    if d != [] {
      assert d[0] in e;
      var a, b := d[0], e[0];
      HeadSeenFirst(xs, d, b);
      HeadSeenFirst(xs, e, a);
      assert xs[IndexOf(xs, a)] == a && xs[IndexOf(xs, b)] == b;
      forall x ensures x in d[1..] <==> x in e[1..] {
        TailMembers(xs, d, x);
        TailMembers(xs, e, x);
      }
      assert FirstSeenOrder(xs, d[1..]);
      assert FirstSeenOrder(xs, e[1..]);
      SortedDistinctEqual(xs, d[1..], e[1..]);
      assert d == [a] + d[1..] && e == [b] + e[1..];
    } else {
      HeadIsMember(e);
    }
  }

  /**
   * The selector list of `_getContextParametersFromAPI`: every selector
   * used by some parameter of some definition, each once, in the order
   * the nested loops first meet it.
   */
  method ContextParametersFromApi(defs: seq<ContextDefinition>) returns (selectors: seq<string>)
    ensures selectors == Distinct(AllSelectors(defs))
    ensures NoDuplicates(selectors)
    ensures forall s :: s in selectors <==> Referenced(defs, s)
    ensures FirstSeenOrder(AllSelectors(defs), selectors)
  {
    selectors := [];
    var i := 0;
    while i < |defs|
      invariant 0 <= i <= |defs|
      invariant selectors == Distinct(AllSelectors(defs[..i]))
    {
      selectors := AddParameterSelectors(selectors, defs[i].parameters, AllSelectors(defs[..i]));
      AllSelectorsPrefix(defs, i);
      i := i + 1;
    }
    assert defs[..i] == defs;
    CollectedSelectors(defs);
  }

  /**
   * The inner `forEach` of `_getContextParametersFromAPI`: push each
   * selector of `ps` that `selectors` does not hold yet.
   */
  method AddParameterSelectors(selectors: seq<string>, ps: seq<ContextParameter>, ghost seen: seq<string>)
    returns (r: seq<string>)
    requires selectors == Distinct(seen)
    ensures r == Distinct(seen + Selectors(ps))
  {
    r := selectors;
    var j := 0;
    ghost var acc := seen;
    assert Selectors(ps[..0]) == [] && seen + [] == seen;
    while j < |ps|
      invariant 0 <= j <= |ps|
      invariant acc == seen + Selectors(ps[..j])
      invariant r == Distinct(acc)
    {
      var s := ps[j].selector;
      DistinctAppend(acc, s);
      if IndexOf(r, s) == -1 {
        r := r + [s];
      }
      SelectorsStep(seen, ps, j);
      acc := acc + [s];
      j := j + 1;
    }
    assert ps[..j] == ps;
  }

  /** What the collected selector list satisfies. */
  lemma CollectedSelectors(defs: seq<ContextDefinition>)
    ensures NoDuplicates(Distinct(AllSelectors(defs)))
    ensures forall s :: s in Distinct(AllSelectors(defs)) <==> Referenced(defs, s)
    ensures FirstSeenOrder(AllSelectors(defs), Distinct(AllSelectors(defs)))
  {
    DistinctElements(AllSelectors(defs));
    forall s ensures s in Distinct(AllSelectors(defs)) <==> Referenced(defs, s) {
      AllSelectorsReferenced(defs, s);
    }
    DistinctFirstSeen(AllSelectors(defs));
  }

  /** One more selector seen by the inner loop. */
  lemma SelectorsStep(seen: seq<string>, ps: seq<ContextParameter>, j: nat)
    requires j < |ps|
    ensures seen + Selectors(ps[..j + 1]) == (seen + Selectors(ps[..j])) + [ps[j].selector]
  {
    assert ps[..j + 1][..j] == ps[..j];
  }

  /** One more definition done by the outer loop. */
  lemma AllSelectorsPrefix(defs: seq<ContextDefinition>, i: nat)
    requires i < |defs|
    ensures AllSelectors(defs[..i + 1]) == AllSelectors(defs[..i]) + Selectors(defs[i].parameters)
  {
    assert defs[..i + 1][..i] == defs[..i];
  }

  /** `Distinct` on one more element: the `indexOf` test of the loop. */
  lemma DistinctAppend(xs: seq<string>, s: string)
    ensures Distinct(xs + [s]) ==
              if IndexOf(Distinct(xs), s) == -1 then Distinct(xs) + [s] else Distinct(xs)
  {
    assert (xs + [s])[..|xs|] == xs;
  }

  // ---------------------------------------------------------------------
  // getActiveContexts

  /**
   * The ids of the active context definitions. A non-empty URL id list
   * overrides everything: the definitions named there are active and the
   * providers are not asked. Otherwise the providers are asked for the
   * distinct selectors of all definitions, and the definitions whose
   * parameters all hold are active; a rejected provider call rejects.
   */
  function ActiveContexts(defs: seq<ContextDefinition>, urlParameter: Option<string>,
                          provider: seq<string> -> ProviderReply): Result<seq<string>, string>
  {
    var urlIds := ContextIdsFromUrl(urlParameter);
    if |urlIds| == 0 then
      match provider(Distinct(AllSelectors(defs)))
      case Resolved(values) => Success(SelectedIds(defs, ByParameters(values)))
      case Rejected(reason) => Failure(reason)
    else
      Success(SelectedIds(defs, ByUrlIds(urlIds)))
  }

  /** `getActiveContexts`, with the providers' promise as the `provider` function. */
  method GetActiveContexts(defs: seq<ContextDefinition>, urlParameter: Option<string>,
                           provider: seq<string> -> ProviderReply)
    returns (r: Result<seq<string>, string>)
    ensures r == ActiveContexts(defs, urlParameter, provider)
  {
    var urlIds := ContextIdsFromUrl(urlParameter);
    if |urlIds| == 0 {
      var selectors := ContextParametersFromApi(defs);
      var reply := provider(selectors);
      match reply
      case Resolved(values) =>
        var ids := ActiveContextsByApiParameters(defs, values);
        r := Success(ids);
      case Rejected(reason) =>
        r := Failure(reason);
    } else {
      var ids := ActiveContextsByUrlParameters(defs, urlIds);
      r := Success(ids);
    }
  }

  /** With the URL parameter set, the result is the URL selection, whatever the providers say. */
  lemma UrlOverrideIgnoresProvider(defs: seq<ContextDefinition>, urlParameter: Option<string>,
                                   p1: seq<string> -> ProviderReply, p2: seq<string> -> ProviderReply)
    requires Truthy(urlParameter)
    ensures ActiveContexts(defs, urlParameter, p1) == ActiveContexts(defs, urlParameter, p2)
    ensures ActiveContexts(defs, urlParameter, p1) ==
              Success(SelectedIds(defs, ByUrlIds(Split(urlParameter.value, ','))))
  {
  }

  /**
   * Without the URL parameter the result depends on the providers only
   * through their answer to the distinct selector list, and it fails
   * exactly when that call is rejected.
   */
  lemma ParameterModeAsksForSelectors(defs: seq<ContextDefinition>, urlParameter: Option<string>,
                                      p1: seq<string> -> ProviderReply, p2: seq<string> -> ProviderReply)
    requires !Truthy(urlParameter)
    requires p1(Distinct(AllSelectors(defs))) == p2(Distinct(AllSelectors(defs)))
    ensures ActiveContexts(defs, urlParameter, p1) == ActiveContexts(defs, urlParameter, p2)
    ensures ActiveContexts(defs, urlParameter, p1).Failure? <==> p1(Distinct(AllSelectors(defs))).Rejected?
  {
  }

  /** Active ids are always ids of the given definitions. */
  lemma ActiveContextsAreDefinitionIds(defs: seq<ContextDefinition>, urlParameter: Option<string>,
                                       provider: seq<string> -> ProviderReply, x: string)
    requires ActiveContexts(defs, urlParameter, provider).Success?
    requires x in ActiveContexts(defs, urlParameter, provider).value
    ensures exists i :: 0 <= i < |defs| && defs[i].id == x
  {
    var urlIds := ContextIdsFromUrl(urlParameter);
    if |urlIds| == 0 {
      var values := provider(Distinct(AllSelectors(defs))).values;
      SelectedIdsMembers(defs, ByParameters(values), x);
    } else {
      SelectedIdsMembers(defs, ByUrlIds(urlIds), x);
    }
  }

  /**
   * Parameter evaluation only looks at referenced selectors: providers
   * that agree on those give the same active definitions.
   */
  lemma {:induction false} SelectionReadsOnlyReferencedSelectors(defs: seq<ContextDefinition>,
                                                                 v1: ProviderValues, v2: ProviderValues)
    requires forall s :: Referenced(defs, s) ==> Lookup(v1, s) == Lookup(v2, s)
    ensures SelectedIds(defs, ByParameters(v1)) == SelectedIds(defs, ByParameters(v2))
    decreases |defs|
  {
    if defs != [] {
      var n := |defs| - 1;
      var front := defs[..n];
      ReferencedInPrefix(defs, n);
      SelectionReadsOnlyReferencedSelectors(front, v1, v2);
      IsActiveReadsOnlyItsSelectors(defs, n, v1, v2);
    }
  }

  /** A selector referenced by a prefix is referenced by the whole list. */
  lemma ReferencedInPrefix(defs: seq<ContextDefinition>, n: nat)
    requires n <= |defs|
    ensures forall s :: Referenced(defs[..n], s) ==> Referenced(defs, s)
  {
    forall s | Referenced(defs[..n], s) ensures Referenced(defs, s) {
      var i, j :| 0 <= i < n && 0 <= j < |defs[..n][i].parameters| && defs[..n][i].parameters[j].selector == s;
      assert defs[i].parameters[j].selector == s;
    }
  }

  /** One definition's activity depends only on the values of its own selectors. */
  lemma IsActiveReadsOnlyItsSelectors(defs: seq<ContextDefinition>, n: nat, v1: ProviderValues, v2: ProviderValues)
    requires n < |defs|
    requires forall s :: Referenced(defs, s) ==> Lookup(v1, s) == Lookup(v2, s)
    ensures IsActive(defs[n], v1) == IsActive(defs[n], v2)
  {
    var ps := defs[n].parameters;
    forall k | 0 <= k < |ps|
      ensures CheckContextParameter(ps[k], v1) == CheckContextParameter(ps[k], v2)
    {
      assert defs[n].parameters[k].selector == ps[k].selector;
    }
  }

  // ---------------------------------------------------------------------
  // createOrUpdateContextObject (up to the repository call)

  /** The `support` record of a context object. */
  datatype Support = Support(generator: string, service: string, user: string)

  /** The caller's description of a context object; every property is optional. */
  datatype ContextObjectInput = ContextObjectInput(
    id: Option<string>,
    title: Option<string>,
    description: Option<string>,
    parameters: Option<seq<ContextParameter>>,
    reference: Option<string>,
    packageName: Option<string>,
    layer: Option<string>,
    namespace: Option<string>,
    creation: Option<string>,
    originalLanguage: Option<string>,
    support: Option<Support>,
    generator: Option<string>,
    validAppVersions: Option<map<string, string>>)

  /** A complete context object, as it is sent to the repository. */
  datatype ContextObject = ContextObject(
    id: string,
    fileName: string,
    title: string,
    description: string,
    parameters: seq<ContextParameter>,
    fileType: string,
    reference: string,
    packageName: string,
    layer: string,
    namespace: string,
    creation: string,
    originalLanguage: string,
    support: Support,
    validAppVersions: map<string, string>)

  /**
   * The values of the foreign default helpers: a generated file name, the
   * current layer and the current language.
   */
  datatype Defaults = Defaults(fileName: string, layer: string, language: string)

  /** The repository request: URL, HTTP method and payload. */
  datatype ContextRequest = ContextRequest(url: string, httpMethod: string, payload: ContextObject)

  /** The two errors thrown before anything is sent. */
  datatype ContextObjectError = NoReference | NoNamespace

  const ContentPath := "/sap/bc/lrep/content/"

  /**
   * Validates the input, fills the defaults and builds the request.
   * It fails when the reference is missing or empty, and otherwise when
   * the namespace is; on success the file name is the id, the file type is
   * "context", the method is "PUT", and the URL addresses the file
   * `<namespace><fileName>.context` in the object's layer.
   */
  function ContextObjectRequest(p: ContextObjectInput, defaults: Defaults)
    : (r: Result<ContextRequest, ContextObjectError>)
    ensures r == Failure(NoReference) <==> !Truthy(p.reference)
    ensures r == Failure(NoNamespace) <==> Truthy(p.reference) && !Truthy(p.namespace)
    ensures r.Success? <==> Truthy(p.reference) && Truthy(p.namespace)
    ensures r.Success? ==>
              var o := r.value.payload;
              && o.id == OrElse(p.id, defaults.fileName)
              && o.fileName == o.id
              && o.fileType == "context"
              && o.title == OrElse(p.title, "")
              && o.description == OrElse(p.description, "")
              && o.parameters == p.parameters.GetOr([])
              && o.reference == p.reference.value
              && o.namespace == p.namespace.value
              && o.packageName == OrElse(p.packageName, "")
              && o.layer == OrElse(p.layer, defaults.layer)
              && o.creation == OrElse(p.creation, "")
              && o.originalLanguage == OrElse(p.originalLanguage, defaults.language)
              && o.support == p.support.GetOr(Support(OrElse(p.generator, ""), "", ""))
              && o.validAppVersions == p.validAppVersions.GetOr(map[])
              && r.value.httpMethod == "PUT"
              && r.value.url == ContentPath + o.namespace + o.fileName + ".context?layer=" + o.layer
  {
    if !Truthy(p.reference) then Failure(NoReference)
    else if !Truthy(p.namespace) then Failure(NoNamespace)
    else
      var id := OrElse(p.id, defaults.fileName);
      var o := ContextObject(
        id := id,
        fileName := id,
        title := OrElse(p.title, ""),
        description := OrElse(p.description, ""),
        parameters := p.parameters.GetOr([]),
        fileType := "context",
        reference := p.reference.value,
        packageName := OrElse(p.packageName, ""),
        layer := OrElse(p.layer, defaults.layer),
        namespace := p.namespace.value,
        creation := OrElse(p.creation, ""),
        originalLanguage := OrElse(p.originalLanguage, defaults.language),
        support := p.support.GetOr(Support(OrElse(p.generator, ""), "", "")),
        validAppVersions := p.validAppVersions.GetOr(map[]));
      assert ContentPath + o.namespace + o.fileName + ".context" + "?layer=" + o.layer
          == ContentPath + o.namespace + o.fileName + ".context?layer=" + o.layer;
      Success(ContextRequest(ContentPath + o.namespace + o.fileName + ".context" + "?layer=" + o.layer, "PUT", o))
  }

  /** `createOrUpdateContextObject` up to, not including, the repository call. */
  method CreateOrUpdateContextObject(p: ContextObjectInput, defaults: Defaults)
    returns (r: Result<ContextRequest, ContextObjectError>)
    ensures r == ContextObjectRequest(p, defaults)
  {
    if !Truthy(p.reference) {
      return Failure(NoReference);
    }
    if !Truthy(p.namespace) {
      return Failure(NoNamespace);
    }
    var id := OrElse(p.id, defaults.fileName);
    var o := ContextObject(
      id := id,
      fileName := id,
      title := OrElse(p.title, ""),
      description := OrElse(p.description, ""),
      parameters := p.parameters.GetOr([]),
      fileType := "context",
      reference := p.reference.value,
      packageName := OrElse(p.packageName, ""),
      layer := OrElse(p.layer, defaults.layer),
      namespace := p.namespace.value,
      creation := OrElse(p.creation, ""),
      originalLanguage := OrElse(p.originalLanguage, defaults.language),
      support := p.support.GetOr(Support(OrElse(p.generator, ""), "", "")),
      validAppVersions := p.validAppVersions.GetOr(map[]));
    var url := ContentPath + o.namespace + o.fileName + ".context";
    url := url + "?layer=" + o.layer;
    var httpMethod := "PUT";
    r := Success(ContextRequest(url, httpMethod, o));
  }

  /** A complete context object read back as caller input. */
  function AsInput(o: ContextObject): ContextObjectInput {
    ContextObjectInput(
      id := Some(o.id),
      title := Some(o.title),
      description := Some(o.description),
      parameters := Some(o.parameters),
      reference := Some(o.reference),
      packageName := Some(o.packageName),
      layer := Some(o.layer),
      namespace := Some(o.namespace),
      creation := Some(o.creation),
      originalLanguage := Some(o.originalLanguage),
      support := Some(o.support),
      generator := Some(o.support.generator),
      validAppVersions := Some(o.validAppVersions))
  }

  /**
   * Updating with a prepared context object changes nothing: the same
   * object and the same request come back, with the same defaults.
   */
  lemma UpdateWithPreparedObjectIsStable(p: ContextObjectInput, defaults: Defaults)
    requires ContextObjectRequest(p, defaults).Success?
    ensures ContextObjectRequest(AsInput(ContextObjectRequest(p, defaults).value.payload), defaults)
            == ContextObjectRequest(p, defaults)
  {
  }

  /**
   * A prepared object whose id, layer and language are non-empty no longer
   * depends on the defaults at all.
   */
  lemma UpdateIgnoresDefaultsOnceFilled(o: ContextObject, d1: Defaults, d2: Defaults)
    requires o.id != "" && o.layer != "" && o.originalLanguage != ""
    ensures ContextObjectRequest(AsInput(o), d1) == ContextObjectRequest(AsInput(o), d2)
  {
  }

  // ---------------------------------------------------------------------
  // Worked examples

  /** Single parameters evaluated against `{s: "x"}` and `{s: "y"}`. */
  lemma ParameterExamples()
    ensures CheckContextParameter(ContextParameter("s", "EQ", Str("x")), map["s" := Str("x")])
    ensures !CheckContextParameter(ContextParameter("s", "NE", Str("x")), map["s" := Str("x")])
    ensures !CheckContextParameter(ContextParameter("s", "EQ", Str("x")), map["s" := Str("y")])
    ensures CheckContextParameter(ContextParameter("s", "NE", Str("x")), map["s" := Str("y")])
    ensures !CheckContextParameter(ContextParameter("s", "BOGUS", Str("x")), map["s" := Str("x")])
  {
  }

  /** A phone-only definition and an unconditional one: on a phone both are active. */
  lemma ParameterModeExample()
    ensures ActiveContexts([PhoneOnly, Unconditional], None, _ => Resolved(map["device" := Str("phone")]))
            == Success(["A", "B"])
  {
    var defs := [PhoneOnly, Unconditional];
    var values := map["device" := Str("phone")];
    var provider: seq<string> -> ProviderReply := _ => Resolved(values);
    assert ContextIdsFromUrl(None) == [];
    assert provider(Distinct(AllSelectors(defs))) == Resolved(values);
    assert defs[..1] == [PhoneOnly] && [PhoneOnly][..0] == [];
    assert IsActive(PhoneOnly, values) && IsActive(Unconditional, values);
    assert SelectedIds([PhoneOnly], ByParameters(values)) == SelectedIds([], ByParameters(values)) + ["A"];
    assert SelectedIds([], ByParameters(values)) == [];
    assert SelectedIds(defs, ByParameters(values)) == SelectedIds([PhoneOnly], ByParameters(values)) + ["B"];
    assert SelectedIds(defs, ByParameters(values)) == ["A", "B"];
    assert ActiveContexts(defs, None, provider) == Success(["A", "B"]);
  }

  /** With the URL naming "B", only "B" is active, whatever the providers say. */
  lemma UrlOverrideExample(provider: seq<string> -> ProviderReply)
    ensures ActiveContexts([PhoneOnly, Unconditional], Some("B"), provider) == Success(["B"])
  {
    var defs := [PhoneOnly, Unconditional];
    assert defs[..1] == [PhoneOnly] && [PhoneOnly][..0] == [];
    assert "B"[1..] == [];
    assert Split("B", ',') == [['B'] + ""] + [];
    assert ContextIdsFromUrl(Some("B")) == ["B"];
    assert "A" !in ["B"] && "B" in ["B"];
    assert SelectedIds([PhoneOnly], ByUrlIds(["B"])) == SelectedIds([], ByUrlIds(["B"]));
    assert SelectedIds(defs, ByUrlIds(["B"])) == SelectedIds([PhoneOnly], ByUrlIds(["B"])) + ["B"];
    assert SelectedIds(defs, ByUrlIds(["B"])) == ["B"];
    assert ActiveContexts(defs, Some("B"), provider) == Success(["B"]);
  }

  const PhoneOnly := ContextDefinition("A", [ContextParameter("device", "EQ", Str("phone"))])
  const Unconditional := ContextDefinition("B", [])
}
