/** Keep rules and the intersection of what they would destroy. */
module Pruning {
  import opened Collections
  import opened Versions
  import opened G = RetentionGrid
  import opened Order

  type Snapshot = G.Entry

  /** A keep rule; regular expressions are predicates on names. */
  datatype Rule =
    | KeepNotReplicated
    | KeepRegex(re: string -> bool, negate: bool)
    | KeepLastN(n: nat, matches: string -> bool)
    | KeepGrid(grid: seq<Interval>, inGrid: string -> bool)

  predicate ValidRule(rule: Rule) {
    match rule
    case KeepLastN(n, _) => n > 0
    case KeepGrid(grid, _) => ValidGrid(grid)
    case _ => true
  }

  method FilterSnapList(snaps: seq<Snapshot>, p: Snapshot -> bool) returns (r: seq<Snapshot>)
    requires NoDuplicates(snaps)
    ensures NoDuplicates(r) && forall s :: s in r <==> s in snaps && p(s)
  {
    r := [];
    for i := 0 to |snaps|
      invariant NoDuplicates(r) && forall s :: s in r <==> s in snaps[..i] && p(s)
    {
      assert snaps[..i + 1] == snaps[..i] + [snaps[i]];
      ElemsNext(snaps, i);
      if p(snaps[i]) {
        r := r + [snaps[i]];
      }
    }
    assert snaps[..|snaps|] == snaps;
  }

  method PartitionSnapList(snaps: seq<Snapshot>, p: Snapshot -> bool) returns (yes: seq<Snapshot>, no: seq<Snapshot>)
    requires NoDuplicates(snaps)
    ensures NoDuplicates(yes) && forall s :: s in yes <==> s in snaps && p(s)
    ensures NoDuplicates(no) && forall s :: s in no <==> s in snaps && !p(s)
  {
    yes, no := [], [];
    for i := 0 to |snaps|
      invariant NoDuplicates(yes) && forall s :: s in yes <==> s in snaps[..i] && p(s)
      invariant NoDuplicates(no) && forall s :: s in no <==> s in snaps[..i] && !p(s)
    {
      assert snaps[..i + 1] == snaps[..i] + [snaps[i]];
      ElemsNext(snaps, i);
      if p(snaps[i]) {
        yes := yes + [snaps[i]];
      } else {
        no := no + [snaps[i]];
      }
    }
    assert snaps[..|snaps|] == snaps;
  }

  /** Sorted before in the order of the last-n rule: younger, or as old with the greater name. */
  predicate Before(a: Snapshot, b: Snapshot) {
    a.date > b.date || (a.date == b.date && StrLe(b.name, a.name))
  }

  lemma BeforeTotal(a: Snapshot, b: Snapshot)
    ensures Before(a, b) || Before(b, a)
  {
    StrLeTotal(a.name, b.name);
  }

  lemma BeforeTransitive(a: Snapshot, b: Snapshot, c: Snapshot)
    requires Before(a, b) && Before(b, c)
    ensures Before(a, c)
  {
    if a.date == b.date == c.date {
      StrLeTransitive(c.name, b.name, a.name);
    }
  }

  ghost predicate LastFirst(s: seq<Snapshot>) {
    forall i, j :: 0 <= i < j < |s| ==> Before(s[i], s[j])
  }

  method InsertLast(s: seq<Snapshot>, e: Snapshot) returns (r: seq<Snapshot>)
    requires LastFirst(s) && NoDuplicates(s) && e !in s
    ensures LastFirst(r) && NoDuplicates(r) && Elems(r) == Elems(s) + {e}
  {
    var i := |s|;
    while i > 0 && !Before(s[i - 1], e)
      invariant 0 <= i <= |s|
      invariant forall k :: i <= k < |s| ==> !Before(s[k], e)
    {
      i := i - 1;
    }
    forall k | 0 <= k < i ensures Before(s[k], e) {
      if k < i - 1 {
        BeforeTransitive(s[k], s[i - 1], e);
      }
    }
    forall k | i <= k < |s| ensures Before(e, s[k]) {
      BeforeTotal(e, s[k]);
    }
    InsertedElems(s, i, e);
    r := s[..i] + [e] + s[i..];
  }

  method SortLastFirst(s: seq<Snapshot>) returns (r: seq<Snapshot>)
    requires NoDuplicates(s)
    ensures LastFirst(r) && NoDuplicates(r) && Elems(r) == Elems(s)
  {
    r := [];
    for i := 0 to |s|
      invariant LastFirst(r) && NoDuplicates(r) && Elems(r) == Elems(s[..i])
    {
      ElemsNext(s, i);
      assert s[i] !in Elems(r);
      r := InsertLast(r, s[i]);
    }
    assert s[..|s|] == s;
  }

  /** `destroy` holds all of `all` but the `n` last. */
  ghost predicate AllButLast(all: set<Snapshot>, n: nat, destroy: set<Snapshot>) {
    && destroy <= all
    && |all - destroy| == (if |all| <= n then |all| else n)
    && forall k, d :: k in all && k !in destroy && d in destroy ==> Before(k, d)
  }

  lemma AllButLastSorted(kept: seq<Snapshot>, rest: seq<Snapshot>)
    requires LastFirst(kept + rest) && NoDuplicates(kept + rest)
    ensures AllButLast(Elems(kept + rest), |kept|, Elems(rest)) && NoDuplicates(rest)
  {
    KeptParts(kept, rest);
    CardElems(kept);
    CardElems(kept + rest);
  }

  lemma KeptParts(kept: seq<Snapshot>, rest: seq<Snapshot>)
    requires LastFirst(kept + rest) && NoDuplicates(kept + rest)
    ensures Elems(kept + rest) - Elems(rest) == Elems(kept) && NoDuplicates(kept) && NoDuplicates(rest)
    ensures forall k, d :: k in Elems(kept) && d in Elems(rest) ==> Before(k, d)
  {
    var all := kept + rest;
    assert forall i :: 0 <= i < |kept| ==> all[i] == kept[i];
    assert forall i :: 0 <= i < |rest| ==> all[|kept| + i] == rest[i];
  }

  function Matching(all: set<Snapshot>, re: string -> bool): (r: set<Snapshot>) {
    set s | s in all && re(s.name)
  }

  /** What a rule may ask to destroy. */
  ghost predicate MayDestroy(rule: Rule, all: set<Snapshot>, destroy: set<Snapshot>) {
    && destroy <= all
    && match rule
       case KeepNotReplicated => destroy == set s | s in all && s.replicated
       case KeepRegex(re, negate) => destroy == set s | s in all && re(s.name) == negate
       case KeepLastN(n, re) =>
         var matching := Matching(all, re);
         all - matching <= destroy && AllButLast(matching, n, matching * destroy)
       case KeepGrid(grid, re) =>
         var matching := Matching(all, re);
         all - matching <= destroy && (matching == {} || FittedByYoungest(grid, matching, matching * destroy))
  }

  /** The grid ends at the youngest snapshot. */
  ghost predicate FittedByYoungest(grid: seq<Interval>, all: set<Snapshot>, destroy: set<Snapshot>) {
    exists y :: y in all && (forall s :: s in all ==> s.date <= y.date) && Fitted(grid, y.date, all, destroy)
  }

  method LastNDestroys(n: nat, matching: seq<Snapshot>) returns (r: seq<Snapshot>)
    requires NoDuplicates(matching)
    ensures NoDuplicates(r) && AllButLast(Elems(matching), n, Elems(r))
  {
    var sorted := SortLastFirst(matching);
    CardElems(matching);
    CardElems(sorted);
    var k := n;
    if k > |sorted| {
      k := |sorted|;
    }
    assert sorted == sorted[..k] + sorted[k..];
    AllButLastSorted(sorted[..k], sorted[k..]);
    return sorted[k..];
  }

  method GridDestroys(grid: seq<Interval>, matching: seq<Snapshot>) returns (r: seq<Snapshot>)
    requires NoDuplicates(matching) && matching != [] && ValidGrid(grid)
    ensures NoDuplicates(r) && FittedByYoungest(grid, Elems(matching), Elems(r))
  {
    var _, remove, sorted := FitEntries(grid, matching);
    SameElems(sorted, matching);
    assert |multiset(sorted)| == |sorted| && |multiset(matching)| == |matching|;
    var y := sorted[0];
    assert y in Elems(matching);
    forall s | s in Elems(matching) ensures s.date <= y.date {
      assert s in Elems(sorted);
    }
    return remove;
  }

  lemma DestroyLists(all: seq<Snapshot>, yes: seq<Snapshot>, no: seq<Snapshot>, gone: seq<Snapshot>)
    requires NoDuplicates(no) && NoDuplicates(gone) && Elems(gone) <= Elems(yes)
    requires Elems(all) == Elems(yes) + Elems(no) && Elems(yes) !! Elems(no)
    ensures NoDuplicates(no + gone) && Elems(no + gone) <= Elems(all)
    ensures Elems(all) - Elems(yes) <= Elems(no + gone) && Elems(yes) * Elems(no + gone) == Elems(gone)
  {
    ElemsConcat(no, gone);
  }

  method PartitionByName(snaps: seq<Snapshot>, re: string -> bool) returns (yes: seq<Snapshot>, no: seq<Snapshot>)
    requires NoDuplicates(snaps)
    ensures NoDuplicates(yes) && Elems(yes) == Matching(Elems(snaps), re)
    ensures NoDuplicates(no) && Elems(no) == Elems(snaps) - Matching(Elems(snaps), re)
  {
    yes, no := PartitionSnapList(snaps, (s: Snapshot) => re(s.name));
  }

  method KeepLastNRule(rule: Rule, snaps: seq<Snapshot>) returns (destroy: seq<Snapshot>)
    requires NoDuplicates(snaps) && rule.KeepLastN? && ValidRule(rule)
    ensures NoDuplicates(destroy) && MayDestroy(rule, Elems(snaps), Elems(destroy))
  {
    var yes, no := PartitionByName(snaps, rule.matches);
    var gone := LastNDestroys(rule.n, yes);
    DestroyLists(snaps, yes, no, gone);
    return no + gone;
  }

  method KeepGridRule(rule: Rule, snaps: seq<Snapshot>) returns (destroy: seq<Snapshot>)
    requires NoDuplicates(snaps) && rule.KeepGrid? && ValidRule(rule)
    ensures NoDuplicates(destroy) && MayDestroy(rule, Elems(snaps), Elems(destroy))
  {
    var yes, no := PartitionByName(snaps, rule.inGrid);
    if |yes| == 0 {
      return no;
    }
    var gone := GridDestroys(rule.grid, yes);
    DestroyLists(snaps, yes, no, gone);
    return no + gone;
  }

  method KeepRegexRule(rule: Rule, snaps: seq<Snapshot>) returns (destroy: seq<Snapshot>)
    requires NoDuplicates(snaps) && rule.KeepRegex?
    ensures NoDuplicates(destroy) && MayDestroy(rule, Elems(snaps), Elems(destroy))
  {
    var re, negate := rule.re, rule.negate;
    destroy := FilterSnapList(snaps, (s: Snapshot) => re(s.name) == negate);
  }

  method KeepNotReplicatedRule(snaps: seq<Snapshot>) returns (destroy: seq<Snapshot>)
    requires NoDuplicates(snaps)
    ensures NoDuplicates(destroy) && MayDestroy(KeepNotReplicated, Elems(snaps), Elems(destroy))
  {
    destroy := FilterSnapList(snaps, (s: Snapshot) => s.replicated);
  }

  method KeepRule(rule: Rule, snaps: seq<Snapshot>) returns (destroy: seq<Snapshot>)
    requires NoDuplicates(snaps) && ValidRule(rule)
    ensures NoDuplicates(destroy) && MayDestroy(rule, Elems(snaps), Elems(destroy))
  {
    match rule
    case KeepNotReplicated => destroy := KeepNotReplicatedRule(snaps);
    case KeepRegex(_, _) => destroy := KeepRegexRule(rule, snaps);
    case KeepLastN(_, _) => destroy := KeepLastNRule(rule, snaps);
    case KeepGrid(_, _) => destroy := KeepGridRule(rule, snaps);
  }

  // The intersection.

  /** How many of the lists hold the snapshot. */
  function Count(lists: seq<seq<Snapshot>>, s: Snapshot): (r: nat)
    ensures r <= |lists|
  {
    if lists == [] then 0
    else Count(lists[..|lists| - 1], s) + if s in lists[|lists| - 1] then 1 else 0
  }

  lemma {:induction false} CountAll(lists: seq<seq<Snapshot>>, s: Snapshot)
    ensures Count(lists, s) == |lists| <==> forall i :: 0 <= i < |lists| ==> s in lists[i]
  {
    if lists != [] {
      CountAll(lists[..|lists| - 1], s);
    }
  }

  function Counted(remCount: map<Snapshot, nat>, s: Snapshot): (r: nat) {
    if s in remCount then remCount[s] else 0
  }

  /** Counts one list. */
  method CountList(remCount: map<Snapshot, nat>, list: seq<Snapshot>) returns (r: map<Snapshot, nat>)
    requires NoDuplicates(list)
    ensures forall s :: Counted(r, s) == Counted(remCount, s) + if s in list then 1 else 0
    ensures r.Keys == remCount.Keys + Elems(list)
  {
    r := remCount;
    for i := 0 to |list|
      invariant forall s :: Counted(r, s) == Counted(remCount, s) + if s in Elems(list[..i]) then 1 else 0
      invariant r.Keys == remCount.Keys + Elems(list[..i])
    {
      ElemsNext(list, i);
      r := r[list[i] := Counted(r, list[i]) + 1];
    }
    assert list[..|list|] == list;
  }

  /** One destroy list per rule. */
  ghost predicate ListsOf(rules: seq<Rule>, all: set<Snapshot>, lists: seq<seq<Snapshot>>) {
    |lists| == |rules| && forall i :: 0 <= i < |rules| ==> MayDestroy(rules[i], all, Elems(lists[i]))
  }

  ghost predicate InAll(lists: seq<seq<Snapshot>>, s: Snapshot) {
    forall i :: 0 <= i < |lists| ==> s in lists[i]
  }

  /** The counts are those of the lists. */
  ghost predicate CountsMatch(remCount: map<Snapshot, nat>, lists: seq<seq<Snapshot>>) {
    forall s :: Counted(remCount, s) == Count(lists, s)
  }

  lemma CountsNext(m: map<Snapshot, nat>, m': map<Snapshot, nat>, lists: seq<seq<Snapshot>>, list: seq<Snapshot>)
    requires CountsMatch(m, lists)
    requires forall s :: Counted(m', s) == Counted(m, s) + if s in list then 1 else 0
    ensures CountsMatch(m', lists + [list])
  {
    assert (lists + [list])[..|lists|] == lists;
  }

  lemma ListsNext(rules: seq<Rule>, rule: Rule, all: set<Snapshot>, lists: seq<seq<Snapshot>>, list: seq<Snapshot>)
    requires ListsOf(rules, all, lists) && MayDestroy(rule, all, Elems(list))
    ensures ListsOf(rules + [rule], all, lists + [list])
  {
  }

  /** How often each snapshot is in the rules' lists. */
  method CountRules(snaps: seq<Snapshot>, rules: seq<Rule>) returns (remCount: map<Snapshot, nat>, ghost lists: seq<seq<Snapshot>>)
    requires NoDuplicates(snaps) && forall i :: 0 <= i < |rules| ==> ValidRule(rules[i])
    ensures ListsOf(rules, Elems(snaps), lists) && CountsMatch(remCount, lists)
  {
    lists := [];
    remCount := map[];
    for i := 0 to |rules|
      invariant ListsOf(rules[..i], Elems(snaps), lists) && CountsMatch(remCount, lists)
    {
      var list := KeepRule(rules[i], snaps);
      var before := remCount;
      remCount := CountList(remCount, list);
      CountsNext(before, remCount, lists, list);
      ListsNext(rules[..i], rules[i], Elems(snaps), lists, list);
      lists := lists + [list];
      assert rules[..i + 1] == rules[..i] + [rules[i]];
    }
    assert rules[..|rules|] == rules;
  }

  /** The snapshots every rule would destroy, and no others; nothing without rules. */
  method PruneSnapshots(snaps: seq<Snapshot>, rules: seq<Rule>) returns (remove: seq<Snapshot>, ghost lists: seq<seq<Snapshot>>)
    requires NoDuplicates(snaps) && forall i :: 0 <= i < |rules| ==> ValidRule(rules[i])
    ensures ListsOf(rules, Elems(snaps), lists)
    ensures NoDuplicates(remove)
    ensures rules == [] ==> remove == []
    ensures rules != [] ==> forall s :: s in remove <==> InAll(lists, s)
  {
    if |rules| == 0 {
      return [], [];
    }
    var remCount;
    remCount, lists := CountRules(snaps, rules);
    remove := CollectFull(remCount, |rules|);
    forall s ensures s in remove <==> InAll(lists, s) {
      assert Counted(remCount, s) == Count(lists, s);
      CountAll(lists, s);
    }
  }

  /** The snapshots counted `n` times, in any order. */
  method CollectFull(remCount: map<Snapshot, nat>, n: nat) returns (remove: seq<Snapshot>)
    requires n > 0
    ensures NoDuplicates(remove) && forall s :: s in remove <==> Counted(remCount, s) == n
  {
    remove := [];
    var keys := remCount.Keys;
    while keys != {}
      invariant keys <= remCount.Keys
      invariant NoDuplicates(remove) && forall s :: s in remove <==> s !in keys && Counted(remCount, s) == n
      decreases |keys|
    {
      var s :| s in keys;
      keys := keys - {s};
      if remCount[s] == n {
        remove := remove + [s];
      }
    }
  }
}
