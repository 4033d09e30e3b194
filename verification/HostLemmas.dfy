/** What the loops of the runtime compute, as facts about the tables. */
module HostLemmas {
  import opened Word
  import opened Prefix
  import opened Tree
  import opened Claims
  import opened Slots
  import opened ModuleEntry
  import opened Dispatch
  import opened Coherence
  import opened Runs
  import opened Lifecycle

  // ----- The walk to the root, region by region

  ghost function StepOne(c: Cache, mark: bool): Cache {
    c.(gen := NextGen(c.gen), dirty := c.dirty || mark)
  }

  /** The caches while the walk from start has still to visit `next` and everything above it. */
  ghost function Stepped(t: Tree, before: map<Key, Cache>, start: Key, mark: bool, next: Option<Key>): map<Key, Cache> {
    map k | k in before ::
      if IsUnder(t, start, k) && (next.None? || !IsUnder(t, next.value, k)) then StepOne(before[k], mark) else before[k]
  }

  lemma SteppedNone(t: Tree, before: map<Key, Cache>, start: Key, mark: bool)
    ensures Stepped(t, before, start, mark, Some(start)) == before
    ensures Stepped(t, before, start, mark, None) == Touch(t, before, start, mark)
  {
  }

  lemma SteppedOnce(t: Tree, before: map<Key, Cache>, start: Key, mark: bool, k: Key)
    requires Shape(t) && before.Keys == t.Keys && k in t && IsUnder(t, start, k)
    ensures var m := Stepped(t, before, start, mark, Some(k));
            m[k] == before[k] && Stepped(t, before, start, mark, t[k].parent) == m[k := StepOne(m[k], mark)]
    ensures t[k].parent.Some? ==>
              t[k].parent.value in t && t[k].parent.value.plen < k.plen && IsUnder(t, start, t[k].parent.value)
  {
    assert ParentOk(t, k);
    var p := t[k].parent;
    forall j ensures IsUnder(t, k, j) <==> j == k || (p.Some? && IsUnder(t, p.value, j)) {
    }
    if p.Some? {
      if IsUnder(t, p.value, k) { UnderWider(t, p.value, k); }
      UnderTransitive(t, start, k, p.value);
    }
  }

  /** The flags while the walk has still to visit `next` and everything above it. */
  ghost function Raised(t: Tree, before: map<Key, bool>, start: Key, next: Option<Key>): map<Key, bool> {
    map k | k in before :: before[k] || (IsUnder(t, start, k) && (next.None? || !IsUnder(t, next.value, k)))
  }

  lemma RaisedNone(t: Tree, before: map<Key, bool>, start: Key)
    ensures Raised(t, before, start, Some(start)) == before
    ensures Raised(t, before, start, None) == RaiseFlags(t, before, start)
  {
  }

  lemma RaisedOnce(t: Tree, before: map<Key, bool>, start: Key, k: Key)
    requires Shape(t) && before.Keys == t.Keys && k in t && IsUnder(t, start, k)
    ensures Raised(t, before, start, t[k].parent) == Raised(t, before, start, Some(k))[k := true]
    ensures t[k].parent.Some? ==>
              t[k].parent.value in t && t[k].parent.value.plen < k.plen && IsUnder(t, start, t[k].parent.value)
  {
    assert ParentOk(t, k);
    var p := t[k].parent;
    forall j ensures IsUnder(t, k, j) <==> j == k || (p.Some? && IsUnder(t, p.value, j)) {
    }
    if p.Some? {
      if IsUnder(t, p.value, k) { UnderWider(t, p.value, k); }
      UnderTransitive(t, start, k, p.value);
    }
  }

  /** The regions met by following parent links, nearest first. */
  function Walk(t: Tree, e: Option<Key>): (r: seq<Key>)
    requires Shape(t) && (e.Some? ==> e.value in t)
    ensures e.None? <==> r == []
    decreases if e.Some? then e.value.plen + 1 else 0
  {
    if e.None? then []
    else
      assert ParentOk(t, e.value);
      [e.value] + Walk(t, t[e.value].parent)
  }

  lemma WalkSteps(t: Tree, k: Key, before: seq<Key>)
    requires Shape(t) && k in t
    ensures t[k].parent.Some? ==> t[k].parent.value in t && t[k].parent.value.plen < k.plen
    ensures before + Walk(t, Some(k)) == before + [k] + Walk(t, t[k].parent)
  {
    assert ParentOk(t, k);
  }

  /** The walk up is the chain read backwards. */
  lemma {:induction false} WalkIsChain(t: Tree, k: Key)
    requires Shape(t) && k in t
    ensures |Walk(t, Some(k))| == |Chain(t, k)|
    ensures forall i :: 0 <= i < |Chain(t, k)| ==> Walk(t, Some(k))[i] == Chain(t, k)[|Chain(t, k)| - 1 - i]
    decreases k.plen
  {
    assert ParentOk(t, k);
    if t[k].parent.Some? { WalkIsChain(t, t[k].parent.value); }
  }

  /** Stepping the walk from p before or after hanging a leaf under p comes to the same. */
  lemma TouchAttached(t: Tree, cache: map<Key, Cache>, p: Key, k: Key)
    requires Shape(t) && Hangable(t, p, k) && cache.Keys == t.Keys
    ensures Touch(Attach(t, p, k), cache[k := NEW_CACHE], p, true) == Touch(t, cache, p, true)[k := NEW_CACHE]
  {
    var t' := Attach(t, p, k);
    AttachKeepsShape(t, p, k);
    forall j | j in t ensures IsUnder(t', p, j) <==> IsUnder(t, p, j) {
      AttachUnder(t, p, k, p, j);
    }
    if IsUnder(t', p, k) { UnderWider(t', p, k); }
  }

  // ----- The search loop, child by child

  ghost function SearchFrom(t: Tree, node: Key, i: nat, hits: set<Key>, limit: nat, best: Option<Key>): Option<Key>
    requires Shape(t) && node in t && i <= |t[node].children|
  {
    ChildrenWider(t, node);
    SearchAll(t, node, t[node].children[i..], hits, limit, best)
  }

  lemma SearchStarts(t: Tree, node: Key, hits: set<Key>, limit: nat, best: Option<Key>)
    requires Shape(t) && node in t
    ensures Search(t, node, hits, limit, best) ==
            if node.plen >= limit then best else SearchFrom(t, node, 0, hits, limit, Better(node, hits, best))
    ensures forall b :: SearchFrom(t, node, |t[node].children|, hits, limit, b) == b
  {
    var cs := t[node].children;
    assert cs[0..] == cs;
  }

  lemma SearchSteps(t: Tree, node: Key, i: nat, hits: set<Key>, limit: nat, best: Option<Key>)
    requires Shape(t) && node in t && i < |t[node].children|
    ensures var c := t[node].children[i];
      && c in t && node.plen < c.plen <= 64
      && SearchFrom(t, node, i, hits, limit, best) ==
         SearchFrom(t, node, i + 1, hits, limit, Search(t, c, hits, limit, best))
  {
    ChildrenWider(t, node);
    var cs := t[node].children;
    assert cs[i..][1..] == cs[i + 1..];
  }

  // ----- Claims on behalf of a load

  /** A parent's claim handler: absent, declining, or granting some width. */
  datatype ClaimAnswer = NoHandler | Declines | Grants(granted: nat)

  function ClaimStatus(t: Tree, parent: Key, bits: nat, answer: ClaimAnswer): Status {
    if bits == 0 || bits > 64 then Invalid
    else if parent !in t then NotFound
    else if !answer.Grants? || answer.granted == 0 || answer.granted > 64 then Refused
    else if Alloc(t.Keys, parent, answer.granted) == INVALID_ID then TooBig
    else Ok
  }

  /** What a claim of that shape answers. */
  function ClaimShape(id: nat, plen: nat): Status {
    if plen > 64 then TooBig else if !Canonical(Key(id, plen)) then Invalid else Ok
  }

  /** The claim handlers once a claim of k that brings fn has succeeded; a new region brings none of its own. */
  function Handled(handlers: map<Key, nat>, k: Key, fn: Option<nat>): map<Key, nat> {
    if fn.Some? then handlers[k := fn.value] else handlers
  }

  // ----- Hook names

  /** The number of a hook name, if it has one. */
  function NumberOf(hooks: seq<string>, hook: string): (h: Option<nat>)
    ensures h.None? <==> hook !in hooks
    ensures h.Some? ==> h.value < |hooks| && hooks[h.value] == hook
  {
    if hooks == [] then None
    else if hooks[|hooks| - 1] == hook then Some(|hooks| - 1)
    else NumberOf(hooks[..|hooks| - 1], hook)
  }

  lemma ProbesBound(bits: nat, cplen: nat)
    requires 0 < bits <= cplen <= 64
    ensures 0 < Probes(bits, cplen) <= WORD_SIZE
    ensures cplen < 64 ==> Probes(bits, cplen) < WORD_SIZE
  {
    WordSize();
    Pow2Monotone(bits, 64);
  }

  // ----- The collecting loop, child by child

  /** The caches differ in one region's subtree vector at most. */
  ghost predicate OnlySubtree(before: map<Key, Cache>, after: map<Key, Cache>, k: Key, subtree: seq<Module>) {
    && k in before && after.Keys == before.Keys
    && after[k] == before[k].(subtree := subtree)
    && (forall j :: j in before && j != k ==> after[j] == before[j])
  }

  lemma OnlySubtreeIs(before: map<Key, Cache>, after: map<Key, Cache>, k: Key, ms: seq<Module>)
    requires k in before && OnlySubtree(before[k := before[k].(subtree := [])], after, k, [] + ms)
    ensures after == before[k := before[k].(subtree := ms)]
  {
    assert [] + ms == ms;
  }

  ghost function SubtreeFrom(t: Tree, lists: Lists, k: Key, i: nat): seq<Module>
    requires Shape(t) && lists.Keys == t.Keys && k in t && i <= |t[k].children|
  {
    ChildrenWider(t, k);
    SubtreesOf(t, lists, k, t[k].children[i..])
  }

  lemma SubtreeStarts(t: Tree, lists: Lists, k: Key)
    requires Shape(t) && lists.Keys == t.Keys && k in t
    ensures SubtreeMods(t, lists, k) == lists[k] + SubtreeFrom(t, lists, k, 0)
    ensures SubtreeFrom(t, lists, k, |t[k].children|) == []
  {
    assert t[k].children[0..] == t[k].children;
  }

  lemma SubtreeSteps(t: Tree, lists: Lists, k: Key, i: nat)
    requires Shape(t) && lists.Keys == t.Keys && k in t && i < |t[k].children|
    ensures var c := t[k].children[i];
      && c in t && k.plen < c.plen <= 64
      && SubtreeFrom(t, lists, k, i) == SubtreeMods(t, lists, c) + SubtreeFrom(t, lists, k, i + 1)
  {
    ChildrenWider(t, k);
    var cs := t[k].children;
    assert cs[i..][1..] == cs[i + 1..];
  }

  // ----- The dispatcher's preparations

  lemma ModsLive(s: State, k: Key)
    requires Aligned(s) && Linked(s.lists, s.live) && k in s.tree
    ensures forall m :: m in Mods(s, k) ==> m in s.live
  {
    forall m | m in Mods(s, k) ensures m in s.live {
      SubtreeModsMember(s.tree, s.lists, k, m);
      var j :| j in Below(s.tree, k) && m in s.lists[j];
      assert LinkedIn(s.lists, s.live, j);
    }
  }

  lemma CollectedIs(s: State, k: Key)
    requires Aligned(s) && CachesOk(s) && k in s.tree
    ensures Collected(s, k).subtree == Mods(s, k)
  {
    assert CacheOkAt(s, k);
  }

  // ----- Unloading

  /** A module linked nowhere but at home is gone from every list once it is gone from that one. */
  lemma PurgedAtHome(s: State, k: Key, e: Module)
    requires Aligned(s) && Linked(s.lists, s.live) && k in s.tree
    requires forall j :: j in s.lists && e in s.lists[j] ==> j == k
    ensures e !in s.lists[k] ==> Purged(s.lists, {e}) == s.lists
  {
    if e !in s.lists[k] {
      forall j | j in s.lists ensures Without(s.lists[j], {e}) == s.lists[j] {
        WithoutNone(s.lists[j], {e});
      }
    }
  }

  lemma PurgedOne(lists: Lists, live: set<Module>, k: Key, i: nat)
    requires Linked(lists, live) && k in lists && i < |lists[k]|
    ensures Purged(lists, {lists[k][i]}) == lists[k := RemoveAt(lists[k], i)]
  {
    var e := lists[k][i];
    assert LinkedIn(lists, live, k);
    forall j | j in lists ensures Without(lists[j], {e}) == lists[k := RemoveAt(lists[k], i)][j] {
      if j == k {
        WithoutOne(lists[k], i);
      } else {
        assert Apart(lists, j, k);
        WithoutNone(lists[j], {e});
      }
    }
  }

  /** One entry is unlinked by an unload, if it was linked at home at all. */
  ghost predicate UnlinkedBy(s: State, s': State, e: Module, home: Key) {
    if home in s.lists && e in s.lists[home] then
      exists i :: 0 <= i < |s.lists[home]| && s.lists[home][i] == e && s' == Step(s, Op.Unload(home, i))
    else s' == s
  }

  /** And it is no longer live. */
  ghost predicate Departed(s: State, s': State, e: Module, home: Key) {
    UnlinkedBy(s, s'.(live := s.live), e, home) && s'.live == s.live - {e}
  }

  lemma DepartedBy(s: State, mid: State, s': State, e: Module, home: Key)
    requires UnlinkedBy(s, mid, e, home) && mid.live == s.live && s' == mid.(live := s.live - {e})
    ensures Departed(s, s', e, home)
  {
    assert s'.(live := s.live) == mid;
  }

  /** What became of the denials: the region no longer denies the path of an entry that was linked there. */
  ghost predicate Lifts(before: map<Key, Denies>, after: map<Key, Denies>, home: Key, linked: bool, path: string) {
    && after.Keys == before.Keys
    && forall j :: j in before ==>
         after[j].hooks == before[j].hooks
         && after[j].mods == if j == home && linked then before[j].mods - {path} else before[j].mods
  }

  lemma DepartedLifts(s: State, s': State, e: Module, home: Key)
    requires Aligned(s) && home in s.tree && Departed(s, s', e, home)
    ensures Lifts(s.deny, s'.deny, home, e in s.lists[home], e.path)
    ensures s'.tree == s.tree && s'.flag == s.flag && s'.hooks == s.hooks
  {
  }

  /** Taking the i-th module of region k out, as a step of a run and on the lists. */
  lemma Taken(s: State, k: Key, i: nat)
    requires Inv(s) && NoWrap(s, k) && k in s.tree && i < |s.lists[k]|
    ensures var ms := RemoveAt(s.lists[k], i);
            Inv(Relist(s, k, ms)) && Step(s, Unlink(k, i)) == Relist(s, k, ms)
              && Purged(s.lists, {s.lists[k][i]}) == s.lists[k := ms]
    ensures s.lists[k][i] in s.live
  {
    RemoveLinked(s, k, i);
    RelistKeeps(s, k, RemoveAt(s.lists[k], i));
    PurgedOne(s.lists, s.live, k, i);
    assert LinkedIn(s.lists, s.live, k);
  }
}
