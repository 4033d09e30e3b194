/** Nested dispatches: shared cells that must look, at every handler's entry, like lexically scoped values. */
module Nesting {
  import opened Word
  import opened Prefix
  import opened Tree
  import opened ModuleEntry

  datatype Adapter = Adapter(hook: string, retSize: nat)

  /** A module entry as a dispatch uses it: its region, its context cell and its own state block. */
  datatype Listener = Listener(region: Key, ctx: nat, ctxRegion: nat, state: nat)

  /** A handler's run: who runs, what it does, what it returns. */
  datatype Handler = Handler(m: Listener, body: seq<Action>, ret: Bytes)

  /**
   * What a handler may do: ask for the last return or for the current region, dispatch a hook into a buffer, enter a
   * region for a while if it exists.
   */
  datatype Action =
    | AskLast
    | AskRegion
    | Dispatch(reg: Adapter, buf: Option<nat>, refused: bool, handlers: seq<Handler>)
    | Within(region: Key, known: bool, scope: seq<Action>)

  /** What asking for the last return yields. */
  datatype Last = NoDispatch | NothingRan | Got(value: Bytes)

  /** The current region: its id, and the entry the thread last entered, if any. */
  datatype Here = Here(id: nat, entry: Option<Key>)

  datatype Event =
    | Entered(m: Listener, last: Last, here: Here, state: nat)
    | Asked(last: Last)
    | Stood(here: Here)

  // ----- The lexical reading

  datatype Outcome = Outcome(events: seq<Event>, last: Last)

  /** A thread that has not entered any region is at the root. */
  function Effective(here: Here): Key {
    match here.entry case None => ROOT case Some(k) => k
  }

  /** Where m runs: in its own region, which needs no switch when the caller is already there. */
  function Inside(here: Here, m: Listener): Here {
    if m.region == Effective(here) then here else Here(m.ctxRegion, Some(m.region))
  }

  function Returned(buf: Option<nat>, ret: Bytes): Last {
    Got(if buf.None? then [] else ret)
  }

  function RunAction(a: Action, here: Here, last: Last): Outcome
    decreases a, 0
  {
    match a
    case AskLast => Outcome([Asked(last)], last)
    case AskRegion => Outcome([Stood(here)], last)
    case Dispatch(reg, buf, refused, handlers) =>
      if refused then Outcome([], NothingRan) else RunHandlers(handlers, buf, here, NothingRan)
    case Within(region, known, scope) =>
      if known then RunBody(scope, Here(region.id, Some(region)), last) else Outcome([], last)
  }

  function RunBody(body: seq<Action>, here: Here, last: Last): Outcome
    decreases body, 1
  {
    if body == [] then Outcome([], last)
    else
      var first := RunAction(body[0], here, last);
      var rest := RunBody(body[1..], here, first.last);
      Outcome(first.events + rest.events, rest.last)
  }

  /** What one handler does, entered knowing `last`. */
  function RunHandler(h: Handler, here: Here, last: Last): seq<Event>
    decreases h, 0
  {
    [Entered(h.m, last, Inside(here, h.m), h.m.state)] + RunBody(h.body, Inside(here, h.m), last).events
  }

  /** Each handler is entered knowing its predecessor's return, whatever that predecessor dispatched in between. */
  function RunHandlers(handlers: seq<Handler>, buf: Option<nat>, here: Here, last: Last): Outcome
    decreases handlers, 1
  {
    if handlers == [] then Outcome([], last)
    else
      var rest := RunHandlers(handlers[1..], buf, here, Returned(buf, handlers[0].ret));
      Outcome(RunHandler(handlers[0], here, last) + rest.events, rest.last)
  }

  lemma {:induction false} HandlersAppend(a: seq<Handler>, b: seq<Handler>, buf: Option<nat>, here: Here, last: Last)
    ensures var first := RunHandlers(a, buf, here, last);
            var rest := RunHandlers(b, buf, here, first.last);
            RunHandlers(a + b, buf, here, last) == Outcome(first.events + rest.events, rest.last)
    decreases |a|
  {
    if a == [] {
      assert a + b == b;
    } else {
      assert (a + b)[1..] == a[1..] + b;
      HandlersAppend(a[1..], b, buf, here, Returned(buf, a[0].ret));
    }
  }

  lemma OneHandler(h: Handler, buf: Option<nat>, here: Here, last: Last)
    ensures RunHandlers([h], buf, here, last) == Outcome(RunHandler(h, here, last), Returned(buf, h.ret))
  {
    assert [h][1..] == [];
  }

  /** The n-th handler of a dispatch sees exactly what the one before it returned; the first sees that nothing ran. */
  lemma NthHandlerSees(hs: seq<Handler>, n: nat, buf: Option<nat>, here: Here)
    requires n < |hs|
    ensures var seen := if n == 0 then NothingRan else Returned(buf, hs[n - 1].ret);
            var before := RunHandlers(hs[..n], buf, here, NothingRan).events;
            before + [Entered(hs[n].m, seen, Inside(here, hs[n].m), hs[n].m.state)]
              <= RunHandlers(hs, buf, here, NothingRan).events
  {
    var before := RunHandlers(hs[..n], buf, here, NothingRan);
    assert hs == hs[..n] + ([hs[n]] + hs[n + 1..]);
    HandlersAppend(hs[..n], [hs[n]] + hs[n + 1..], buf, here, NothingRan);
    LastOfHandlers(hs[..n], buf, here, NothingRan);
    HandlersAppend([hs[n]], hs[n + 1..], buf, here, before.last);
    OneHandler(hs[n], buf, here, before.last);
  }

  /** After a dispatch its last handler's return is what can be asked for. */
  lemma {:induction false} LastOfHandlers(hs: seq<Handler>, buf: Option<nat>, here: Here, last: Last)
    ensures RunHandlers(hs, buf, here, last).last == if hs == [] then last else Returned(buf, hs[|hs| - 1].ret)
    decreases |hs|
  {
    if hs != [] {
      LastOfHandlers(hs[1..], buf, here, Returned(buf, hs[0].ret));
    }
  }

  // ----- What a handler is told when it asks

  lemma {:induction false} BodyAppend(a: seq<Action>, b: seq<Action>, here: Here, last: Last)
    ensures var first := RunBody(a, here, last);
            var rest := RunBody(b, here, first.last);
            RunBody(a + b, here, last) == Outcome(first.events + rest.events, rest.last)
    decreases |a|
  {
    if a == [] {
      assert a + b == b;
    } else {
      assert (a + b)[1..] == a[1..] + b;
      BodyAppend(a[1..], b, here, RunAction(a[0], here, last).last);
    }
  }

  lemma OneAction(a: Action, here: Here, last: Last)
    ensures RunBody([a], here, last) == RunAction(a, here, last)
  {
    assert [a][1..] == [];
  }

  /** The latest dispatch a body makes itself, the scopes of regions it really enters included. */
  function Latest(body: seq<Action>): Option<Action>
    decreases body, 1
  {
    if body == [] then None
    else if Latest(body[1..]).Some? then Latest(body[1..])
    else LatestOf(body[0])
  }

  function LatestOf(a: Action): Option<Action>
    decreases a, 0
  {
    match a
    case Dispatch(_, _, _, _) => Some(a)
    case Within(_, known, scope) => if known then Latest(scope) else None
    case _ => None
  }

  /** What a dispatch leaves to be read: its last handler's return, or that nothing ran. */
  function Leaves(a: Action): Last
    requires a.Dispatch?
  {
    if a.refused || a.handlers == [] then NothingRan
    else if a.buf.None? then Got([]) else Got(a.handlers[|a.handlers| - 1].ret)
  }

  /** What can be read after a body: what its latest dispatch left, or what could be read before. */
  function Readable(body: seq<Action>, before: Last): Last {
    LeftBy(Latest(body), before)
  }

  function LeftBy(latest: Option<Action>, before: Last): Last {
    match latest
    case None => before
    case Some(a) => if a.Dispatch? then Leaves(a) else before
  }

  lemma {:induction false} LatestDispatches(body: seq<Action>)
    ensures Latest(body).Some? ==> Latest(body).value.Dispatch?
    decreases body, 1
  {
    if body != [] {
      LatestDispatches(body[1..]);
      LatestOfDispatches(body[0]);
    }
  }

  lemma {:induction false} LatestOfDispatches(a: Action)
    ensures LatestOf(a).Some? ==> LatestOf(a).value.Dispatch?
    decreases a, 0
  {
    if a.Within? { LatestDispatches(a.scope); }
  }

  lemma {:induction false} BodyLeaves(body: seq<Action>, here: Here, last: Last)
    ensures RunBody(body, here, last).last == Readable(body, last)
    decreases body, 1
  {
    if body != [] {
      var first := RunAction(body[0], here, last);
      ActionLeaves(body[0], here, last);
      LatestDispatches(body[1..]);
      BodyLeaves(body[1..], here, first.last);
    }
  }

  lemma {:induction false} ActionLeaves(a: Action, here: Here, last: Last)
    ensures RunAction(a, here, last).last == LeftBy(LatestOf(a), last)
    decreases a, 0
  {
    match a {
      case Dispatch(reg, buf, refused, handlers) =>
        if !refused { LastOfHandlers(handlers, buf, here, NothingRan); }
      case Within(region, known, scope) =>
        if known { BodyLeaves(scope, Here(region.id, Some(region)), last); }
      case _ =>
    }
  }

  /** Asking, at any point of a body, tells what can be read there. */
  lemma AskTells(body: seq<Action>, i: nat, here: Here, last: Last)
    requires i < |body| && body[i].AskLast?
    ensures RunBody(body[..i], here, last).events + [Asked(Readable(body[..i], last))]
              <= RunBody(body, here, last).events
  {
    ActionInside(body, i, here, last);
  }

  /** Asking for the region tells where the body runs, whatever was entered and left before. */
  lemma RegionTells(body: seq<Action>, i: nat, here: Here, last: Last)
    requires i < |body| && body[i].AskRegion?
    ensures RunBody(body[..i], here, last).events + [Stood(here)] <= RunBody(body, here, last).events
  {
    ActionInside(body, i, here, last);
  }

  /** What an action causes stands right behind what the actions before it caused. */
  lemma ActionInside(body: seq<Action>, i: nat, here: Here, last: Last)
    requires i < |body|
    ensures RunBody(body[..i], here, last).last == Readable(body[..i], last)
    ensures RunBody(body[..i], here, last).events + RunAction(body[i], here, Readable(body[..i], last)).events
              <= RunBody(body, here, last).events
  {
    BodyLeaves(body[..i], here, last);
    var before := RunBody(body[..i], here, last);
    assert body == body[..i] + ([body[i]] + body[i + 1..]);
    BodyAppend(body[..i], [body[i]] + body[i + 1..], here, last);
    BodyAppend([body[i]], body[i + 1..], here, before.last);
    OneAction(body[i], here, before.last);
  }

  /** A scope runs in the region entered, knowing what could be read before; one of an unknown region does not run. */
  lemma ScopeInside(body: seq<Action>, i: nat, here: Here, last: Last)
    requires i < |body| && body[i].Within?
    ensures var inside := if body[i].known
                          then RunBody(body[i].scope, Here(body[i].region.id, Some(body[i].region)),
                                       Readable(body[..i], last)).events
                          else [];
            RunBody(body[..i], here, last).events + inside
            + RunBody(body[i + 1..], here, Readable(body[..i + 1], last)).events
              == RunBody(body, here, last).events
  {
    Around(body, i, here, last);
  }

  /** A dispatch runs its handlers from here, the first of them seeing that nothing ran; a refused one runs nothing. */
  lemma DispatchInside(body: seq<Action>, i: nat, here: Here, last: Last)
    requires i < |body| && body[i].Dispatch?
    ensures var inside := if body[i].refused then []
                          else RunHandlers(body[i].handlers, body[i].buf, here, NothingRan).events;
            RunBody(body[..i], here, last).events + inside
            + RunBody(body[i + 1..], here, Readable(body[..i + 1], last)).events
              == RunBody(body, here, last).events
  {
    Around(body, i, here, last);
  }

  lemma Around(body: seq<Action>, i: nat, here: Here, last: Last)
    requires i < |body|
    ensures RunBody(body[..i], here, last).events + RunAction(body[i], here, Readable(body[..i], last)).events
            + RunBody(body[i + 1..], here, Readable(body[..i + 1], last)).events
              == RunBody(body, here, last).events
  {
    BodyLeaves(body[..i], here, last);
    BodyLeaves(body[..i + 1], here, last);
    var before := RunBody(body[..i], here, last);
    assert body == body[..i + 1] + body[i + 1..] && body[..i + 1] == body[..i] + [body[i]];
    BodyAppend(body[..i], [body[i]], here, last);
    OneAction(body[i], here, before.last);
    BodyAppend(body[..i + 1], body[i + 1..], here, last);
  }

  /** What the n-th handler of a dispatch is entered with. */
  function Seen(hs: seq<Handler>, n: nat, buf: Option<nat>): Last
    requires n < |hs|
  {
    if n == 0 then NothingRan else if buf.None? then Got([]) else Got(hs[n - 1].ret)
  }

  /** The n-th handler's body stands right behind its entry. */
  lemma BodyInside(hs: seq<Handler>, n: nat, buf: Option<nat>, here: Here)
    requires n < |hs|
    ensures var before := RunHandlers(hs[..n], buf, here, NothingRan).events;
            var inside := Inside(here, hs[n].m);
            before + [Entered(hs[n].m, Seen(hs, n, buf), inside, hs[n].m.state)]
              + RunBody(hs[n].body, inside, Seen(hs, n, buf)).events
              <= RunHandlers(hs, buf, here, NothingRan).events
  {
    var before := RunHandlers(hs[..n], buf, here, NothingRan);
    LastOfHandlers(hs[..n], buf, here, NothingRan);
    var rest := HandlersSplit(hs, n, buf, here);
    var entry := [Entered(hs[n].m, before.last, Inside(here, hs[n].m), hs[n].m.state)];
    Fronted(before.events, entry, RunBody(hs[n].body, Inside(here, hs[n].m), before.last).events, rest);
  }

  lemma HandlersSplit(hs: seq<Handler>, n: nat, buf: Option<nat>, here: Here) returns (rest: seq<Event>)
    requires n < |hs|
    ensures var before := RunHandlers(hs[..n], buf, here, NothingRan);
            RunHandlers(hs, buf, here, NothingRan).events ==
              before.events + (RunHandler(hs[n], here, before.last) + rest)
  {
    var before := RunHandlers(hs[..n], buf, here, NothingRan);
    assert hs == hs[..n] + ([hs[n]] + hs[n + 1..]);
    HandlersAppend(hs[..n], [hs[n]] + hs[n + 1..], buf, here, NothingRan);
    HandlersAppend([hs[n]], hs[n + 1..], buf, here, before.last);
    OneHandler(hs[n], buf, here, before.last);
    rest := RunHandlers(hs[n + 1..], buf, here, Returned(buf, hs[n].ret)).events;
  }

  lemma Fronted<T>(a: seq<T>, e: seq<T>, b: seq<T>, c: seq<T>)
    ensures a + e + b <= a + ((e + b) + c)
  {
  }

  /**
   * A handler that asks for the last return before any dispatch of its own is told what it was entered with; after one
   * it is told what the latest left: its last handler's return, or that nothing ran if it was refused or found no
   * listener.
   */
  lemma HandlerIsTold(hs: seq<Handler>, n: nat, i: nat, buf: Option<nat>, here: Here)
    requires n < |hs| && i < |hs[n].body| && hs[n].body[i].AskLast?
    ensures var before := RunHandlers(hs[..n], buf, here, NothingRan).events;
            var inside := Inside(here, hs[n].m);
            before + [Entered(hs[n].m, Seen(hs, n, buf), inside, hs[n].m.state)]
              + RunBody(hs[n].body[..i], inside, Seen(hs, n, buf)).events
              + [Asked(Readable(hs[n].body[..i], Seen(hs, n, buf)))]
              <= RunHandlers(hs, buf, here, NothingRan).events
  {
    BodyInside(hs, n, buf, here);
    AskTells(hs[n].body, i, Inside(here, hs[n].m), Seen(hs, n, buf));
    var front := RunHandlers(hs[..n], buf, here, NothingRan).events
                 + [Entered(hs[n].m, Seen(hs, n, buf), Inside(here, hs[n].m), hs[n].m.state)];
    LongerFront(front, RunBody(hs[n].body[..i], Inside(here, hs[n].m), Seen(hs, n, buf)).events
                       + [Asked(Readable(hs[n].body[..i], Seen(hs, n, buf)))],
                RunBody(hs[n].body, Inside(here, hs[n].m), Seen(hs, n, buf)).events,
                RunHandlers(hs, buf, here, NothingRan).events);
  }

  lemma LongerFront<T>(front: seq<T>, a: seq<T>, b: seq<T>, whole: seq<T>)
    requires a <= b && front + b <= whole
    ensures front + a <= whole
  {
    assert front + a <= front + b;
  }

  /** A handler that asks where it is is told its own region. */
  lemma HandlerStands(hs: seq<Handler>, n: nat, i: nat, buf: Option<nat>, here: Here)
    requires n < |hs| && i < |hs[n].body| && hs[n].body[i].AskRegion?
    ensures var before := RunHandlers(hs[..n], buf, here, NothingRan).events;
            var inside := Inside(here, hs[n].m);
            Effective(inside) == hs[n].m.region &&
            before + [Entered(hs[n].m, Seen(hs, n, buf), inside, hs[n].m.state)]
              + RunBody(hs[n].body[..i], inside, Seen(hs, n, buf)).events + [Stood(inside)]
              <= RunHandlers(hs, buf, here, NothingRan).events
  {
    BodyInside(hs, n, buf, here);
    RegionTells(hs[n].body, i, Inside(here, hs[n].m), Seen(hs, n, buf));
    var front := RunHandlers(hs[..n], buf, here, NothingRan).events
                 + [Entered(hs[n].m, Seen(hs, n, buf), Inside(here, hs[n].m), hs[n].m.state)];
    LongerFront(front, RunBody(hs[n].body[..i], Inside(here, hs[n].m), Seen(hs, n, buf)).events
                       + [Stood(Inside(here, hs[n].m))],
                RunBody(hs[n].body, Inside(here, hs[n].m), Seen(hs, n, buf)).events,
                RunHandlers(hs, buf, here, NothingRan).events);
  }

  /** The id half and the entry half of the current region name the same region. */
  ghost predicate AtHome(here: Here) {
    here.id == Effective(here).id
  }

  /** The contexts of a call tree belong to the regions of the modules that run on them. */
  ghost predicate Sole(a: Action)
    decreases a, 0
  {
    match a
    case AskLast => true
    case AskRegion => true
    case Dispatch(_, _, _, handlers) => SoleHandlers(handlers)
    case Within(_, _, scope) => SoleBody(scope)
  }

  ghost predicate SoleBody(body: seq<Action>)
    decreases body, 1
  {
    forall i :: 0 <= i < |body| ==> Sole(body[i])
  }

  ghost predicate SoleHandlers(hs: seq<Handler>)
    decreases hs, 1
  {
    forall i :: 0 <= i < |hs| ==> hs[i].m.ctxRegion == hs[i].m.region.id && SoleBody(hs[i].body)
  }

  /**
   * Whoever is entered is in its own region, with its own state, and with the matching id when contexts are not shared.
   */
  ghost predicate Proper(events: seq<Event>, sole: bool) {
    forall i :: 0 <= i < |events| && events[i].Entered? ==>
      && Effective(events[i].here) == events[i].m.region
      && events[i].state == events[i].m.state
      && (sole ==> events[i].here.id == events[i].m.region.id)
  }

  lemma {:induction false} HandlersProper(hs: seq<Handler>, buf: Option<nat>, here: Here, last: Last, sole: bool)
    requires sole ==> SoleHandlers(hs) && AtHome(here)
    ensures Proper(RunHandlers(hs, buf, here, last).events, sole)
    decreases hs, 1
  {
    if hs != [] {
      var inside := Inside(here, hs[0].m);
      BodyProper(hs[0].body, inside, last, sole);
      HandlersProper(hs[1..], buf, here, Returned(buf, hs[0].ret), sole);
    }
  }

  /** Every handler of every call tree is entered properly, however deep it is nested. */
  lemma {:induction false} BodyProper(body: seq<Action>, here: Here, last: Last, sole: bool)
    requires sole ==> SoleBody(body) && AtHome(here)
    ensures Proper(RunBody(body, here, last).events, sole)
    decreases body, 1
  {
    if body != [] {
      match body[0] {
        case AskLast =>
        case AskRegion =>
        case Dispatch(reg, buf, refused, handlers) =>
          assert sole ==> Sole(body[0]);
          if !refused { HandlersProper(handlers, buf, here, NothingRan, sole); }
        case Within(region, _, scope) =>
          assert sole ==> Sole(body[0]);
          BodyProper(scope, Here(region.id, Some(region)), last, sole);
      }
      BodyProper(body[1..], here, RunAction(body[0], here, last).last, sole);
    }
  }

  // ----- What the caller must provide

  /** Buffers hold their return types, and handlers return what the adapter declares. */
  ghost predicate ActionOk(a: Action, sizes: map<nat, nat>)
    decreases a, 0
  {
    match a
    case AskLast => true
    case AskRegion => true
    case Dispatch(reg, buf, refused, handlers) =>
      && (buf.Some? ==> buf.value in sizes && sizes[buf.value] >= reg.retSize)
      && (!refused ==> reg.retSize <= MAX_RET && HandlersOk(handlers, reg, sizes))
    case Within(_, _, scope) => BodyOk(scope, sizes)
  }

  ghost predicate BodyOk(body: seq<Action>, sizes: map<nat, nat>)
    decreases body, 1
  {
    forall i :: 0 <= i < |body| ==> ActionOk(body[i], sizes)
  }

  ghost predicate HandlersOk(hs: seq<Handler>, reg: Adapter, sizes: map<nat, nat>)
    decreases hs, 1
  {
    forall i :: 0 <= i < |hs| ==> |hs[i].ret| == reg.retSize && BodyOk(hs[i].body, sizes)
  }

  // ----- The shared cells

  /** What a dispatch returns: its last handler's bytes, or zeros when nothing ran. */
  function Result(reg: Adapter, refused: bool, handlers: seq<Handler>): Bytes {
    if refused || handlers == [] then Zeros(reg.retSize) else handlers[|handlers| - 1].ret
  }

  function Zeros(n: nat): (r: Bytes)
    ensures |r| == n && forall i :: 0 <= i < n ==> r[i] == 0
  {
    seq(n, _ => 0)
  }

  datatype Pointer = Null | Caller(buf: nat) | Own

  class Thread {
    /** The cells behind `xy_last`: how many ran, where the return is, and the thread's own copy of it. */
    var lastRan: nat
    var lastRetp: Pointer
    var retbuf: Bytes
    var adapter: Option<Adapter>
    /** The current region: its id and its entry. */
    var regionId: nat
    var entry: Option<Key>
    /** The state block every module context points to. */
    var ctxState: map<nat, nat>
    /** The callers' buffers. */
    var mem: map<nat, Bytes>
    const sizes: map<nat, nat>
    var log: seq<Event>

    constructor (sizes: map<nat, nat>)
      ensures Valid() && this.sizes == sizes && log == [] && LastNow() == NoDispatch && entry == None
    {
      this.sizes := sizes;
      lastRan, lastRetp, adapter := 0, Null, None;
      retbuf := seq(MAX_RET, _ => 0);
      regionId, entry, ctxState, log := 0, None, map[], [];
      mem := map b | b in sizes :: seq(sizes[b], _ => 0);
    }

    ghost predicate Valid()
      reads this
    {
      && |retbuf| == MAX_RET
      && mem.Keys == sizes.Keys && (forall b :: b in sizes ==> |mem[b]| == sizes[b])
      && (adapter.Some? && lastRan > 0 ==>
            (lastRetp.Caller? ==> lastRetp.buf in sizes && adapter.value.retSize <= sizes[lastRetp.buf])
            && (lastRetp.Own? ==> adapter.value.retSize <= MAX_RET))
    }

    /** `xy_last`. */
    function LastNow(): Last
      requires Valid()
      reads this
    {
      if adapter.None? then NoDispatch
      else if lastRan == 0 then NothingRan
      else
        match lastRetp
        case Null => Got([])
        case Caller(b) => Got(mem[b][..adapter.value.retSize])
        case Own => Got(retbuf[..adapter.value.retSize])
    }

    /** `xy_set_last_ret`: up to eight bytes travel as one zero-padded word, more byte by byte. */
    method SetLastRet(buf: Option<nat>, size: nat)
      requires |retbuf| == MAX_RET
      requires buf.Some? && size > 0 ==> buf.value in mem && size <= |mem[buf.value]| && size <= MAX_RET
      modifies this`retbuf, this`lastRetp
      ensures |retbuf| == MAX_RET
      ensures if buf.Some? && size > 0 then lastRetp == Own && retbuf[..size] == mem[buf.value][..size]
              else lastRetp == Null
    {
      if buf.Some? && size > 0 {
        var value := mem[buf.value][..size];
        if size <= 8 {
          var word := value + seq(8 - size, _ => 0);
          retbuf := word + retbuf[8..];
        } else {
          retbuf := value + retbuf[size..];
        }
        lastRetp := Own;
      } else {
        lastRetp := Null;
      }
    }

    /** The adapter's call: the handler's return lands in the caller's buffer, if there is one. */
    method Store(buf: Option<nat>, value: Bytes)
      requires Valid() && (buf.Some? ==> buf.value in sizes && |value| <= sizes[buf.value])
      modifies this`mem
      ensures mem.Keys == sizes.Keys && forall b :: b in sizes ==> |mem[b]| == sizes[b]
      ensures buf.Some? ==> mem[buf.value][..|value|] == value
    {
      if buf.Some? {
        var b := buf.value;
        mem := mem[b := value + mem[b][|value|..]];
      }
    }

    /** The refused dispatch: nothing ran, and the caller's buffer is zeroed. */
    method Refuse(reg: Adapter, buf: Option<nat>)
      requires Valid() && (buf.Some? ==> buf.value in sizes && reg.retSize <= sizes[buf.value])
      modifies this
      ensures Valid() && LastNow() == NothingRan && log == old(log) && Now() == old(Now())
      ensures buf.Some? ==> mem[buf.value][..reg.retSize] == Zeros(reg.retSize)
    {
      lastRan := 0;
      SetLastRet(None, reg.retSize);
      Store(buf, Zeros(reg.retSize));
      adapter := Some(reg);
    }

    /** Where the thread is. */
    function Now(): Here
      reads this
    {
      Here(regionId, entry)
    }

    /** Before a handler: point its context at its state and be in its region. */
    method Enter(m: Listener)
      requires Valid()
      modifies this`ctxState, this`regionId, this`entry, this`log
      ensures Valid() && LastNow() == old(LastNow()) && Now() == Inside(old(Now()), m)
      ensures log == old(log) + [Entered(m, LastNow(), Now(), m.state)]
    {
      ctxState := ctxState[m.ctx := m.state];
      if m.region != Effective(Now()) { regionId, entry := m.ctxRegion, Some(m.region); }
      log := log + [Entered(m, LastNow(), Now(), ctxState[m.ctx])];
    }

    /** After a handler: its return is stored, the caller's region is back, and the next handler can read it. */
    method Complete(ret: Bytes, reg: Adapter, buf: Option<nat>, caller: Here, ran: nat)
      requires Valid() && |ret| == reg.retSize <= MAX_RET && ran > 0
      requires buf.Some? ==> buf.value in sizes && reg.retSize <= sizes[buf.value]
      modifies this`mem, this`regionId, this`entry, this`lastRan, this`adapter, this`lastRetp
      ensures Valid() && Now() == caller && Published(ran, buf, reg)
      ensures LastNow() == Returned(buf, ret) && (buf.Some? ==> mem[buf.value][..reg.retSize] == ret)
    {
      Store(buf, ret);
      regionId, entry := caller.id, caller.entry;
      Publish(ran, buf, reg);
    }

    /** One handler of a dispatch. */
    method RunOne(h: Handler, reg: Adapter, buf: Option<nat>, caller: Here, ran: nat)
      requires Valid() && caller == Now() && |h.ret| == reg.retSize <= MAX_RET && BodyOk(h.body, sizes)
      requires buf.Some? ==> buf.value in sizes && reg.retSize <= sizes[buf.value]
      modifies this
      ensures Valid() && Now() == caller && Published(ran + 1, buf, reg)
      ensures log == old(log) + RunHandler(h, caller, old(LastNow()))
      ensures LastNow() == Returned(buf, h.ret) && (buf.Some? ==> mem[buf.value][..reg.retSize] == h.ret)
      decreases h, 0
    {
      Enter(h.m);
      RunActions(h.body);
      Complete(h.ret, reg, buf, caller, ran + 1);
    }

    /** The cells of `xy_last` speak of this dispatch. */
    ghost predicate Published(ran: nat, buf: Option<nat>, reg: Adapter)
      reads this
    {
      lastRan == ran && adapter == Some(reg) && lastRetp == if buf.Some? then Caller(buf.value) else Null
    }

    /** `xy_last_publish`. */
    method Publish(ran: nat, buf: Option<nat>, reg: Adapter)
      modifies this`lastRan, this`adapter, this`lastRetp
      ensures Published(ran, buf, reg)
    {
      lastRan, adapter := ran, Some(reg);
      lastRetp := if buf.Some? then Caller(buf.value) else Null;
    }

    /** `xy_dispatch` once its listeners are known. */
    method RunDispatch(reg: Adapter, buf: Option<nat>, handlers: seq<Handler>)
      requires Valid() && ActionOk(Dispatch(reg, buf, false, handlers), sizes)
      modifies this
      ensures Valid() && Now() == old(Now())
      ensures log == old(log) + RunHandlers(handlers, buf, Now(), NothingRan).events
      ensures LastNow() == RunHandlers(handlers, buf, Now(), NothingRan).last
      ensures buf.Some? ==> mem[buf.value][..reg.retSize] == Result(reg, false, handlers)
      decreases handlers, 2
    {
      RunEach(reg, buf, handlers);
      Finish(reg, buf, |handlers|);
    }

    /** The loop over the listeners. */
    method RunEach(reg: Adapter, buf: Option<nat>, handlers: seq<Handler>)
      requires Valid() && ActionOk(Dispatch(reg, buf, false, handlers), sizes)
      modifies this
      ensures Valid() && Now() == old(Now()) && Published(|handlers|, buf, reg)
      ensures log == old(log) + RunHandlers(handlers, buf, Now(), NothingRan).events
      ensures LastNow() == RunHandlers(handlers, buf, Now(), NothingRan).last
      ensures buf.Some? && handlers != [] ==> mem[buf.value][..reg.retSize] == handlers[|handlers| - 1].ret
      decreases handlers, 1
    {
      var caller := Now();
      Publish(0, buf, reg);
      for i := 0 to |handlers|
        invariant Valid() && Now() == caller && Published(i, buf, reg)
        invariant log == old(log) + RunHandlers(handlers[..i], buf, caller, NothingRan).events
        invariant LastNow() == RunHandlers(handlers[..i], buf, caller, NothingRan).last
        invariant buf.Some? && i > 0 ==> mem[buf.value][..reg.retSize] == handlers[i - 1].ret
      {
        ghost var last := LastNow();
        HandlersAppend(handlers[..i], [handlers[i]], buf, caller, NothingRan);
        OneHandler(handlers[i], buf, caller, last);
        assert handlers[..i + 1] == handlers[..i] + [handlers[i]];
        RunOne(handlers[i], reg, buf, caller, i);
      }
      assert handlers[..|handlers|] == handlers;
    }

    /** The end of a dispatch: keep a copy of the return, or zero the buffer when nothing ran. */
    method Finish(reg: Adapter, buf: Option<nat>, ran: nat)
      requires Valid() && Published(ran, buf, reg) && reg.retSize <= MAX_RET
      requires buf.Some? ==> buf.value in sizes && reg.retSize <= sizes[buf.value]
      modifies this`lastRan, this`retbuf, this`lastRetp, this`mem
      ensures Valid() && LastNow() == old(LastNow()) && (ran > 0 ==> !lastRetp.Caller? && mem == old(mem))
      ensures ran == 0 && buf.Some? ==> mem[buf.value][..reg.retSize] == Zeros(reg.retSize)
    {
      lastRan := ran;
      if ran == 0 {
        SetLastRet(None, reg.retSize);
        Store(buf, Zeros(reg.retSize));
      } else {
        SetLastRet(buf, reg.retSize);
      }
    }

    /** One thing a handler does. */
    method RunOneAction(a: Action)
      requires Valid() && ActionOk(a, sizes)
      modifies this
      ensures Valid() && Now() == old(Now())
      ensures log == old(log) + RunAction(a, Now(), old(LastNow())).events
      ensures LastNow() == RunAction(a, Now(), old(LastNow())).last
      ensures a.Dispatch? && a.buf.Some? ==>
                mem[a.buf.value][..a.reg.retSize] == Result(a.reg, a.refused, a.handlers)
      decreases a, 0
    {
      match a {
        case AskLast =>
          log := log + [Asked(LastNow())];
        case AskRegion =>
          log := log + [Stood(Now())];
        case Dispatch(reg, buf, refused, handlers) =>
          if refused { Refuse(reg, buf); } else { RunDispatch(reg, buf, handlers); }
        case Within(region, known, scope) =>
          if !known { return; }
          var prevId, prevEntry := regionId, entry;
          regionId, entry := region.id, Some(region);
          RunActions(scope);
          regionId, entry := prevId, prevEntry;
      }
    }

    /** What a handler does, action by action. */
    method RunActions(body: seq<Action>)
      requires Valid() && BodyOk(body, sizes)
      modifies this
      ensures Valid() && Now() == old(Now())
      ensures log == old(log) + RunBody(body, Now(), old(LastNow())).events
      ensures LastNow() == RunBody(body, Now(), old(LastNow())).last
      decreases body, 1
    {
      if body == [] { return; }
      RunOneAction(body[0]);
      RunActions(body[1..]);
    }
  }
}
