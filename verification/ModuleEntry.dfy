/** The entry kept for a loaded module, and its memo of resolved hooks. */
module ModuleEntry {

  /** The largest return a hook may have, in bytes. */
  const MAX_RET: nat := 4096

  /** A cell of the function cache: not looked up yet, looked up in vain, or the callback found. */
  datatype Fn = Unresolved | Missing | Callback(image: nat, hook: string)

  /** The function cache and the implemented-hook bits of one entry. */
  datatype Memo = Memo(cells: seq<Fn>, bits: seq<bool>)

  predicate HasBit(memo: Memo, h: int) {
    0 <= h < |memo.bits| && memo.bits[h]
  }

  predicate IsResolved(memo: Memo, h: int) {
    0 <= h < |memo.cells| && !memo.cells[h].Unresolved?
  }

  predicate HasCallback(memo: Memo, h: int) {
    0 <= h < |memo.cells| && memo.cells[h].Callback?
  }

  /** A module's own symbols: the image it was loaded from and the hook names that image itself defines. */
  datatype Symbols = Symbols(image: nat, exports: set<string>)

  /** What resolving a name in the module's own image yields. */
  function Lookup(sym: Symbols, hook: string): (r: Fn)
    ensures r.Callback? <==> hook in sym.exports
    ensures !r.Unresolved?
  {
    if hook in sym.exports then Callback(sym.image, hook) else Missing
  }

  /** Resolved cells agree with the resolver, every callback has its bit, and no bit stands for a foreign hook. */
  ghost predicate MemoSound(memo: Memo, sym: Symbols, hooks: seq<string>) {
    && (forall h :: IsResolved(memo, h) ==> h < |hooks| && memo.cells[h] == Lookup(sym, hooks[h]))
    && (forall h :: HasCallback(memo, h) ==> HasBit(memo, h))
    && (forall h :: HasBit(memo, h) ==> h < |hooks| && hooks[h] in sym.exports)
  }

  /** Moreover a set bit always has its callback at hand. */
  ghost predicate MemoOk(memo: Memo, sym: Symbols, hooks: seq<string>) {
    MemoSound(memo, sym, hooks) && forall h :: HasBit(memo, h) ==> HasCallback(memo, h)
  }

  /** No minted hook is left unresolved. */
  ghost predicate MemoComplete(memo: Memo, hooks: seq<string>) {
    forall h :: 0 <= h < |hooks| ==> IsResolved(memo, h)
  }

  /** Room for cell h: new cells are unresolved. */
  function GrownCells(cells: seq<Fn>, needed: nat): (r: seq<Fn>)
    ensures |r| >= needed && |r| >= |cells|
    ensures forall i :: 0 <= i < |cells| ==> r[i] == cells[i]
    ensures forall i :: |cells| <= i < |r| ==> r[i] == Unresolved
  {
    if needed <= |cells| then cells else cells + seq(needed - |cells|, _ => Unresolved)
  }

  /** Room for bit h, a word of 64 at a time: new bits are clear. */
  function GrownBits(bits: seq<bool>, h: nat): (r: seq<bool>)
    ensures |r| > h && |r| >= |bits|
    ensures forall i :: 0 <= i < |bits| ==> r[i] == bits[i]
    ensures forall i :: |bits| <= i < |r| ==> !r[i]
  {
    var needed := (h / 64 + 1) * 64;
    if needed <= |bits| then bits else bits + seq(needed - |bits|, _ => false)
  }

  /** Resolving hook h and recording the outcome, as `fn_cache_resolve` and `fn_cache_prewarm` both do. */
  function Recorded(memo: Memo, sym: Symbols, h: nat, hook: string): Memo
    requires h < |memo.cells|
  {
    var fn := Lookup(sym, hook);
    Memo(memo.cells[h := fn], if fn.Callback? then GrownBits(memo.bits, h)[h := true] else memo.bits)
  }

  lemma RecordedKeeps(memo: Memo, sym: Symbols, hooks: seq<string>, h: nat)
    requires MemoSound(memo, sym, hooks) && h < |hooks| && h < |memo.cells|
    ensures var r := Recorded(memo, sym, h, hooks[h]);
      && MemoSound(r, sym, hooks) && IsResolved(r, h) && (HasBit(r, h) ==> HasCallback(r, h))
      && (forall i :: i != h ==> IsResolved(r, i) == IsResolved(memo, i) && HasCallback(r, i) == HasCallback(memo, i)
                                 && HasBit(r, i) == HasBit(memo, i))
      && (HasBit(r, h) <==> hooks[h] in sym.exports)
  {
    var r := Recorded(memo, sym, h, hooks[h]);
    assert HasBit(memo, h) ==> hooks[h] in sym.exports;
    forall i | i != h
      ensures IsResolved(r, i) == IsResolved(memo, i) && HasCallback(r, i) == HasCallback(memo, i)
      ensures HasBit(r, i) == HasBit(memo, i)
    {
    }
    forall i | IsResolved(r, i) ensures i < |hooks| && r.cells[i] == Lookup(sym, hooks[i]) {
      if i != h { assert IsResolved(memo, i); }
    }
    forall i | HasCallback(r, i) ensures HasBit(r, i) {
      if i != h { assert HasCallback(memo, i); }
    }
    forall i | HasBit(r, i) ensures i < |hooks| && hooks[i] in sym.exports {
      if i != h { assert HasBit(memo, i); }
    }
  }

  /** A new name at the end of the numbering leaves a sound memo sound. */
  lemma MintedSound(memo: Memo, sym: Symbols, hooks: seq<string>, hook: string)
    requires MemoSound(memo, sym, hooks)
    ensures MemoSound(memo, sym, hooks + [hook])
  {
  }

  /** Forgetting the callbacks into one shared object: the cells are cleared, the bits stay. */
  function Cleared(memo: Memo, image: nat): Memo {
    memo.(cells := seq(|memo.cells|, i requires 0 <= i < |memo.cells| =>
      if memo.cells[i].Callback? && memo.cells[i].image == image then Unresolved else memo.cells[i]))
  }

  /**
   * Clearing on behalf of an unloaded entry harms a survivor exactly when both come from one image and it had resolved
   * a hook.
   */
  lemma ClearedOkIff(memo: Memo, sym: Symbols, hooks: seq<string>, image: nat)
    requires MemoOk(memo, sym, hooks)
    ensures MemoSound(Cleared(memo, image), sym, hooks)
    ensures MemoOk(Cleared(memo, image), sym, hooks) <==> image != sym.image || !exists h :: HasCallback(memo, h)
  {
    var r := Cleared(memo, image);
    forall h ensures HasBit(r, h) == HasBit(memo, h) {
    }
    forall h | HasBit(r, h) ensures h < |hooks| && hooks[h] in sym.exports {
      assert HasBit(memo, h);
    }
    forall h | HasCallback(r, h) ensures HasBit(r, h) {
      assert HasCallback(memo, h);
    }
    if image == sym.image {
      forall h ensures !HasCallback(r, h) {
        if HasCallback(r, h) { assert HasCallback(memo, h) && IsResolved(memo, h); }
      }
      if h :| HasCallback(memo, h) {
        assert HasBit(r, h) && !HasCallback(r, h);
      }
    } else {
      forall h ensures HasCallback(r, h) == HasCallback(memo, h) {
        if HasCallback(memo, h) { assert IsResolved(memo, h); }
      }
      forall h | HasBit(r, h) ensures HasCallback(r, h) {
        assert HasBit(memo, h);
      }
    }
    forall h | IsResolved(r, h) ensures h < |hooks| && r.cells[h] == Lookup(sym, hooks[h]) {
      assert IsResolved(memo, h);
    }
  }

  /** Clearing on behalf of another image changes nothing. */
  lemma ClearedForeign(memo: Memo, sym: Symbols, hooks: seq<string>, image: nat)
    requires MemoSound(memo, sym, hooks)
    ensures image != sym.image ==> Cleared(memo, image) == memo
  {
    if image != sym.image {
      forall h | 0 <= h < |memo.cells| ensures Cleared(memo, image).cells[h] == memo.cells[h] {
        if memo.cells[h].Callback? { assert IsResolved(memo, h); }
      }
    }
  }

  /** The callback a rebuilt dispatch vector stores for hook h: a set bit is believed without a new lookup. */
  function SlotCallback(memo: Memo, sym: Symbols, h: nat, hook: string): Fn {
    if HasBit(memo, h) then (if h < |memo.cells| then memo.cells[h] else Unresolved) else Lookup(sym, hook)
  }

  /**
   * With a sound memo the stored callback is the resolver's; after a harmful clearing it is empty for an exported hook.
   */
  lemma SlotCallbackIff(memo: Memo, sym: Symbols, hooks: seq<string>, h: nat)
    requires MemoSound(memo, sym, hooks) && h < |hooks|
    ensures SlotCallback(memo, sym, h, hooks[h]) == Lookup(sym, hooks[h]) <==>
              (HasBit(memo, h) ==> HasCallback(memo, h))
  {
    if HasCallback(memo, h) { assert IsResolved(memo, h); }
    if HasBit(memo, h) && 0 <= h < |memo.cells| && memo.cells[h].Missing? { assert IsResolved(memo, h); }
  }

  /**
   * The other scope calls the cell as it stands. After the clearing on behalf of an image it is an empty one if and
   * only if it held a callback into that image.
   */
  lemma EmptyCellIff(memo: Memo, sym: Symbols, hooks: seq<string>, h: nat, image: nat)
    requires MemoOk(memo, sym, hooks) && h < |hooks|
    ensures SlotCallback(Cleared(memo, image), sym, h, hooks[h]) == Unresolved <==>
            image == sym.image && HasCallback(memo, h)
    ensures SlotCallback(Cleared(memo, image), sym, h, hooks[h]) == Unresolved ==> hooks[h] in sym.exports
  {
    var r := Cleared(memo, image);
    assert HasBit(r, h) == HasBit(memo, h);
    if HasBit(memo, h) {
      assert HasCallback(memo, h) && IsResolved(memo, h);
    }
  }

  class Module {
    const path: string
    const hasCtx: bool
    const image: nat
    const exports: set<string>
    /** Age of the entry, younger for every new one, and the entry that was being installed when it was loaded. */
    const serial: nat
    const loader: Module?

    var fnCache: seq<Fn>
    var implBits: seq<bool>

    constructor (path: string, hasCtx: bool, image: nat, exports: set<string>, serial: nat, loader: Module?)
      ensures this.path == path && this.hasCtx == hasCtx && this.image == image && this.exports == exports
      ensures this.serial == serial && this.loader == loader
      ensures forall hooks :: MemoOk(Entries(), Names(), hooks)
    {
      this.path := path;
      this.hasCtx := hasCtx;
      this.image := image;
      this.exports := exports;
      this.serial := serial;
      this.loader := loader;
      this.fnCache := [];
      this.implBits := [];
    }

    function Names(): Symbols {
      Symbols(image, exports)
    }

    function Entries(): Memo
      reads this
    {
      Memo(fnCache, implBits)
    }

    method EnsureCells(needed: nat)
      modifies this`fnCache
      ensures fnCache == GrownCells(old(fnCache), needed)
    {
      if needed > |fnCache| {
        fnCache := fnCache + seq(needed - |fnCache|, _ => Unresolved);
      }
    }

    method MarkImplemented(h: nat)
      modifies this`implBits
      ensures implBits == GrownBits(old(implBits), h)[h := true]
    {
      implBits := GrownBits(implBits, h);
      implBits := implBits[h := true];
    }

    /** Record the resolver's answer for hook h. */
    method Record(h: nat, hook: string)
      requires h < |fnCache|
      modifies this
      ensures Entries() == Recorded(old(Entries()), Names(), h, hook)
    {
      var fn := Lookup(Names(), hook);
      fnCache := fnCache[h := fn];
      if fn.Callback? {
        MarkImplemented(h);
      }
    }

    /** `fn_cache_resolve`: answer from the memo where it can, look the name up where it must. */
    method Resolve(h: nat, ghost hooks: seq<string>, hook: string) returns (cb: Fn)
      requires h < |hooks| && hook == hooks[h] && MemoSound(Entries(), Names(), hooks)
      modifies this
      ensures cb == (if hook in exports then Lookup(Names(), hook) else Unresolved)
      ensures MemoSound(Entries(), Names(), hooks) && IsResolved(Entries(), h)
      ensures HasBit(Entries(), h) <==> hook in exports
      ensures old(MemoOk(Entries(), Names(), hooks)) ==> MemoOk(Entries(), Names(), hooks)
      ensures old(MemoComplete(Entries(), hooks)) ==> MemoComplete(Entries(), hooks)
    {
      if h < |fnCache| && !fnCache[h].Unresolved? {
        assert IsResolved(Entries(), h);
        if fnCache[h].Missing? {
          cb := Unresolved;
        } else {
          assert HasCallback(Entries(), h);
          cb := fnCache[h];
        }
        return;
      }
      ghost var before := Entries();
      if h >= |fnCache| {
        EnsureCells(h + 16);
      }
      ghost var grown := Entries();
      assert forall i :: IsResolved(grown, i) == IsResolved(before, i) && HasBit(grown, i) == HasBit(before, i)
                         && HasCallback(grown, i) == HasCallback(before, i);
      RecordedKeeps(grown, Names(), hooks, h);
      Record(h, hook);
      cb := if hook in exports then fnCache[h] else Unresolved;
    }

    /** `fn_cache_prewarm`: resolve every minted hook that is not resolved yet. */
    method Prewarm(hooks: seq<string>)
      requires MemoSound(Entries(), Names(), hooks)
      modifies this
      ensures MemoOk(Entries(), Names(), hooks) && MemoComplete(Entries(), hooks)
    {
      ghost var before := Entries();
      if |hooks| > 0 {
        EnsureCells(|hooks| + 16);
      }
      assert forall i :: IsResolved(Entries(), i) == IsResolved(before, i) && HasBit(Entries(), i) == HasBit(before, i)
                         && HasCallback(Entries(), i) == HasCallback(before, i);
      for h := 0 to |hooks|
        invariant |fnCache| >= |hooks| && MemoSound(Entries(), Names(), hooks)
        invariant forall i :: 0 <= i < h ==> IsResolved(Entries(), i)
      {
        if fnCache[h].Unresolved? {
          RecordedKeeps(Entries(), Names(), hooks, h);
          Record(h, hooks[h]);
        }
      }
      forall h | HasBit(Entries(), h) ensures HasCallback(Entries(), h) {
        assert IsResolved(Entries(), h);
      }
    }

    /** `module_clear_fn_cache_for_handle`, for one surviving entry. */
    method ForgetImage(gone: nat)
      modifies this`fnCache
      ensures Entries() == Cleared(old(Entries()), gone)
    {
      var i := 0;
      while i < |fnCache|
        invariant 0 <= i <= |fnCache| == |old(fnCache)|
        invariant forall j :: 0 <= j < i ==> fnCache[j] == Cleared(old(Entries()), gone).cells[j]
        invariant forall j :: i <= j < |fnCache| ==> fnCache[j] == old(fnCache)[j]
      {
        if fnCache[i].Callback? && fnCache[i].image == gone {
          fnCache := fnCache[i := Unresolved];
        }
        i := i + 1;
      }
    }
  }
}
