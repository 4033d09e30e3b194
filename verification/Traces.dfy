/** The registry's regions, lists and live modules as the result of a run of the steps. */
module Traces {
  import opened Prefix
  import opened Tree
  import opened Claims
  import opened Slots
  import opened ModuleEntry
  import opened Dispatch
  import Coherence
  import opened Runs
  import opened Tables

  /** The run reaches these regions, lists and live modules; its denials and caches come along. Folded, see `Look`. */
  ghost predicate Mirrors(steps: seq<Op>, t: Tree, lists: Lists, live: set<Module>) {
    forall n {:trigger Look(n)} :: Look(n) ==> IsState(Run(steps), t, lists, live)
  }

  ghost predicate IsState(s: State, t: Tree, lists: Lists, live: set<Module>) {
    Aligned(s) && s.tree == t && s.lists == lists && s.live == live
  }

  lemma RunBehind(steps: seq<Op>, t: Tree, lists: Lists, live: set<Module>)
    ensures Mirrors(steps, t, lists, live) <==> IsState(Run(steps), t, lists, live)
  {
    assert Look(0);
  }

  lemma OneMore(steps: seq<Op>, op: Op)
    ensures Run(steps + [op]) == Step(Run(steps), op)
  {
    assert (steps + [op])[..|steps|] == steps;
  }

  lemma MirrorsPublished(steps: seq<Op>, t: Tree, lists: Lists, live: set<Module>, m: Module)
    requires Mirrors(steps, t, lists, live)
    ensures Mirrors(steps + [Op.Publish(m)], t, lists, live + {m})
  {
    RunBehind(steps, t, lists, live);
    OneMore(steps, Op.Publish(m));
    RunBehind(steps + [Op.Publish(m)], t, lists, live + {m});
  }

  lemma MirrorsForgotten(steps: seq<Op>, t: Tree, lists: Lists, live: set<Module>, m: Module)
    requires Mirrors(steps, t, lists, live) && forall k :: k in lists ==> m !in lists[k]
    ensures Mirrors(steps + [Op.Forget(m)], t, lists, live - {m})
  {
    RunBehind(steps, t, lists, live);
    OneMore(steps, Op.Forget(m));
    RunBehind(steps + [Op.Forget(m)], t, lists, live - {m});
  }

  lemma MirrorsInserted(steps: seq<Op>, t: Tree, lists: Lists, live: set<Module>, k: Key, i: nat, m: Module)
    requires Mirrors(steps, t, lists, live) && k in t && k in lists && i <= |lists[k]|
    requires m in live && forall j :: j in lists ==> m !in lists[j]
    ensures Mirrors(steps + [Op.Insert(k, i, m)], t, lists[k := InsertAt(lists[k], i, m)], live)
  {
    RunBehind(steps, t, lists, live);
    OneMore(steps, Op.Insert(k, i, m));
    RunBehind(steps + [Op.Insert(k, i, m)], t, lists[k := InsertAt(lists[k], i, m)], live);
  }

  lemma MirrorsUnlinked(steps: seq<Op>, t: Tree, lists: Lists, live: set<Module>, k: Key, i: nat, lift: bool)
    requires Mirrors(steps, t, lists, live) && k in lists && i < |lists[k]|
    ensures var op := if lift then Op.Unload(k, i) else Op.Unlink(k, i);
            Mirrors(steps + [op], t, lists[k := RemoveAt(lists[k], i)], live)
  {
    var op := if lift then Op.Unload(k, i) else Op.Unlink(k, i);
    RunBehind(steps, t, lists, live);
    OneMore(steps, op);
    UnlinkSteps(Run(steps), t, lists, live, k, i, op);
    RunBehind(steps + [op], t, lists[k := RemoveAt(lists[k], i)], live);
  }

  lemma UnlinkSteps(s: State, t: Tree, lists: Lists, live: set<Module>, k: Key, i: nat, op: Op)
    requires IsState(s, t, lists, live) && k in lists && i < |lists[k]|
    requires op == Op.Unload(k, i) || op == Op.Unlink(k, i)
    ensures IsState(Step(s, op), t, lists[k := RemoveAt(lists[k], i)], live)
  {
  }

  lemma ClaimSteps(s: State, p: Key, k: Key)
    requires Aligned(s) && Canonical(k) && Hangable(s.tree, p, k) && NearestAncestor(s.tree, k) == Some(p)
    ensures Step(s, Op.Claim(k)) == Coherence.AddRegion(s, p, k)
  {
  }

  lemma RegionAdded(s: State, t: Tree, lists: Lists, live: set<Module>, p: Key, k: Key)
    requires IsState(s, t, lists, live) && Hangable(t, p, k)
    ensures IsState(Coherence.AddRegion(s, p, k), Attach(t, p, k), lists[k := []], live)
  {
    AttachKeepsShape(t, p, k);
  }

  lemma MirrorsClaimed(steps: seq<Op>, t: Tree, lists: Lists, live: set<Module>, p: Key, k: Key)
    requires Shape(t) && Mirrors(steps, t, lists, live) && Canonical(k) && Hangable(t, p, k)
    requires NearestAncestor(t, k) == Some(p)
    ensures Mirrors(steps + [Op.Claim(k)], Attach(t, p, k), lists[k := []], live)
  {
    RunBehind(steps, t, lists, live);
    OneMore(steps, Op.Claim(k));
    ClaimSteps(Run(steps), p, k);
    RegionAdded(Run(steps), t, lists, live, p, k);
    RunBehind(steps + [Op.Claim(k)], Attach(t, p, k), lists[k := []], live);
  }

  lemma MirrorsGranted(steps: seq<Op>, t: Tree, lists: Lists, live: set<Module>, p: Key, bits: nat)
    requires Mirrors(steps, t, lists, live) && p in t && bits > 0 && StaysInside(t.Keys, p, bits)
    requires Alloc(t.Keys, p, bits) != INVALID_ID && Hangable(t, p, Key(Alloc(t.Keys, p, bits), p.plen + bits))
    ensures var k := Key(Alloc(t.Keys, p, bits), p.plen + bits);
            Mirrors(steps + [Op.Grant(p, bits)], Attach(t, p, k), lists[k := []], live)
  {
    var k := Key(Alloc(t.Keys, p, bits), p.plen + bits);
    RunBehind(steps, t, lists, live);
    OneMore(steps, Op.Grant(p, bits));
    GrantStep(Run(steps), Op.Grant(p, bits));
    RegionAdded(Run(steps), t, lists, live, p, k);
    RunBehind(steps + [Op.Grant(p, bits)], Attach(t, p, k), lists[k := []], live);
  }

  /** Denials, new hook names and dispatches leave regions, lists and live modules alone. */
  lemma MirrorsMeanwhile(steps: seq<Op>, t: Tree, lists: Lists, live: set<Module>, op: Op)
    requires Mirrors(steps, t, lists, live) && (op.Mint? || op.ForbidHook? || op.ForbidModule? || op.Call?)
    ensures Mirrors(steps + [op], t, lists, live)
  {
    RunBehind(steps, t, lists, live);
    OneMore(steps, op);
    MeanwhileSteps(Run(steps), t, lists, live, op);
    RunBehind(steps + [op], t, lists, live);
  }

  lemma MeanwhileSteps(s: State, t: Tree, lists: Lists, live: set<Module>, op: Op)
    requires IsState(s, t, lists, live) && (op.Mint? || op.ForbidHook? || op.ForbidModule? || op.Call?)
    ensures IsState(Step(s, op), t, lists, live)
  {
  }
}
