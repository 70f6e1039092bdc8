/** The page pool: a bitmap allocator over fixed-size words, changed in place. */
module Pool {
  import opened Options

  const BITS: nat := 64

  /** One bitmap word as the sequence of its bits, bit 0 first. */
  type Word = w: seq<bool> | |w| == 64 witness seq(64, _ => false)

  /** The word whose low k bits are set: `~0UL >> (BITS_PER_LONG - k)`, and 0 for k == 0. */
  function LowMask(k: nat): (w: Word)
    requires k <= 64
    ensures forall i | 0 <= i < 64 :: w[i] <==> i < k
  {
    seq(64, i => i < k)
  }

  function Or(a: Word, b: Word): (w: Word)
    ensures forall i | 0 <= i < 64 :: w[i] <==> a[i] || b[i]
  {
    seq(64, i requires 0 <= i < 64 => a[i] || b[i])
  }

  /** Find first zero: the lowest clear bit of a word that has one. */
  method FindFirstZero(w: Word) returns (k: nat)
    requires exists i | 0 <= i < 64 :: !w[i]
    ensures k < 64 && !w[k]
    ensures forall i | 0 <= i < k :: w[i]
  {
    k := 0;
    while w[k]
      invariant k < 64
      invariant forall i | 0 <= i < k :: w[i]
      decreases 64 - k
    {
      k := k + 1;
    }
  }

  /** Even a request for no pages looks for one. */
  function Wanted(num: nat): nat { if num == 0 then 1 else num }

  /** Every page of the run is a page the allocator looks at, and is free. */
  ghost predicate FreeRun(used: set<nat>, limit: nat, s: nat, num: nat) {
    s + num <= limit && forall k | s <= k < s + num :: k !in used
  }

  lemma OnePage(used: set<nat>, limit: nat, p: nat)
    requires p < limit && !FreeRun(used, limit, p, 1)
    ensures p in used
  {
  }

  predicate AtLeast(k: nat, s: nat) { s <= k }

  /** The pages s .. s + num - 1. */
  ghost function Run(s: nat, num: nat): (r: set<nat>)
    ensures forall k: nat :: k in r <==> s <= k < s + num
  {
    set k: nat | k < s + num && AtLeast(k, s)
  }

  lemma {:induction false} RunSize(s: nat, num: nat)
    ensures |Run(s, num)| == num
  {
    if num == 0 {
      assert Run(s, num) == {};
    } else {
      RunSize(s, num - 1);
      assert Run(s, num) == Run(s, num - 1) + {s + num - 1};
    }
  }

  /**
   * Free pages start..last, then only used pages up to `end`: no run of `num` free pages begins before `end`
   * if none begins before `start` and start..last is too short.
   */
  lemma NoRunAcross(used: set<nat>, limit: nat, start: nat, last: nat, end: nat, s: nat, num: nat)
    requires start <= last < limit && last < start + num - 1
    requires forall k | last < k < end :: k in used
    requires forall t: nat | t < start :: !FreeRun(used, limit, t, num)
    requires end <= limit && (end == limit || last + 1 < end)
    requires s < end || end == limit
    ensures !FreeRun(used, limit, s, num)
  {
    if start <= s && s + num <= limit {
      var k := if s <= last then last + 1 else s;
      assert last < k < end && k in used;
    }
  }

  class PagePool {
    const pages: nat
    const bitmap: array<Word>
    var usedPages: nat

    constructor (pages: nat)
      ensures Valid() && fresh(bitmap) && this.pages == pages
      ensures Used() == {} && usedPages == 0
    {
      this.pages := pages;
      bitmap := new Word[(pages + 63) / 64](_ => seq(64, _ => false));
      usedPages := 0;
    }

    /** test_bit on the bitmap. */
    predicate Bit(n: nat)
      requires n / 64 < bitmap.Length
      reads bitmap
    {
      bitmap[n / 64][n % 64]
    }

    /** The set of pages whose bit is set. */
    ghost function Used(): (u: set<nat>)
      reads bitmap
    {
      set n: nat | n < 64 * bitmap.Length && Bit(n)
    }

    /** Pages the search ever considers: the scan stops before a last partial bitmap word. */
    function Limit(): nat {
      pages / 64 * 64
    }

    /** The statistics counter is exactly the number of set bits. */
    ghost predicate Valid()
      reads this, bitmap
    {
      && bitmap.Length == (pages + 63) / 64
      && usedPages == |Used()|
    }

    /** The lowest free page at or after `start`, among the pages of the full bitmap words. */
    method FindNextFree(start: nat) returns (r: Option<nat>)
      requires Valid()
      ensures r.Some? ==> start <= r.value < Limit() && r.value !in Used()
                          && forall n | start <= n < r.value :: n in Used()
      ensures r.None? ==> forall n | start <= n < Limit() :: n in Used()
    {
      if start >= pages {
        return None;
      }
      var startMask := if start % 64 > 0 then LowMask(start % 64) else LowMask(0);
      var pos := start / 64;
      while pos < pages / 64
        invariant start / 64 <= pos
        invariant pos == start / 64 ==> startMask == LowMask(start % 64)
        invariant pos > start / 64 ==> startMask == LowMask(0)
        invariant forall n | start <= n < pos * 64 && n < Limit() :: n in Used()
      {
        var val := Or(bitmap[pos], startMask);
        startMask := LowMask(0);
        if exists i | 0 <= i < 64 :: !val[i] {
          var bit := FindFirstZero(val);
          var pageNr := bit + pos * 64;
          assert pageNr / 64 == pos && pageNr % 64 == bit;
          forall n | start <= n < pageNr ensures n in Used() {
            if n >= pos * 64 {
              assert n / 64 == pos && val[n % 64];
            }
          }
          return Some(pageNr);
        }
        forall n | start <= n < (pos + 1) * 64 && n < Limit() ensures n in Used() {
          if n >= pos * 64 {
            assert n / 64 == pos && val[n % 64];
          }
        }
        pos := pos + 1;
      }
      return None;
    }

    /** set_bit */
    method SetBit(n: nat)
      requires n < 64 * bitmap.Length
      modifies bitmap
      ensures Used() == old(Used()) + {n}
    {
      bitmap[n / 64] := bitmap[n / 64][n % 64 := true];
      forall k: nat ensures k in Used() <==> k in old(Used()) || k == n {
        assert k / 64 == n / 64 && k % 64 == n % 64 ==> k == n;
      }
    }

    /** clear_bit */
    method ClearBit(n: nat)
      requires n < 64 * bitmap.Length
      modifies bitmap
      ensures Used() == old(Used()) - {n}
    {
      bitmap[n / 64] := bitmap[n / 64][n % 64 := false];
      forall k: nat ensures k in Used() <==> k in old(Used()) && k != n {
        assert k / 64 == n / 64 && k % 64 == n % 64 ==> k == n;
      }
    }

    /**
     * The search of page_alloc, with its restart: the lowest run of free pages, or None when the scanned pages
     * hold no such run.
     */
    method FindRun(num: nat) returns (r: Option<nat>)
      requires Valid()
      ensures r.Some? ==> FreeRun(Used(), Limit(), r.value, Wanted(num))
      ensures r.Some? ==> forall s: nat | s < r.value :: !FreeRun(Used(), Limit(), s, Wanted(num))
      ensures r.None? ==> forall s: nat :: !FreeRun(Used(), Limit(), s, Wanted(num))
    {
      hide Used;
      ghost var want := Wanted(num);
      var first := FindNextFree(0);
      if first.None? {
        forall s: nat ensures !FreeRun(Used(), Limit(), s, want) {
          assert s < Limit() ==> s in Used();
        }
        return None;
      }
      var start: nat, last: nat, count: nat := first.value, first.value, 1;
      forall s: nat | s < start ensures !FreeRun(Used(), Limit(), s, want) {
        assert s in Used();
      }
      while count < num
        invariant 1 <= count <= want
        invariant last == start + count - 1 < Limit()
        invariant forall k | start <= k <= last :: k !in Used()
        invariant forall s: nat | s < start :: !FreeRun(Used(), Limit(), s, want)
        decreases Limit() - last
      {
        var next := FindNextFree(last + 1);
        if next.None? {
          forall s: nat ensures !FreeRun(Used(), Limit(), s, want) {
            NoRunAcross(Used(), Limit(), start, last, Limit(), s, want);
          }
          return None;
        }
        if next.value != last + 1 {
          forall s: nat | s < next.value ensures !FreeRun(Used(), Limit(), s, want) {
            NoRunAcross(Used(), Limit(), start, last, next.value, s, want);
          }
          start, last, count := next.value, next.value, 1;   // goto restart
        } else {
          last, count := next.value, count + 1;
        }
      }
      return Some(start);
    }

    /**
     * page_alloc: first fit, and complete. A run is returned exactly when the scanned pages hold one; it is
     * the lowest; and used_pages stays the number of set bits. Asking for no pages still needs one free page.
     */
    method Alloc(num: nat) returns (r: Option<nat>)
      requires Valid()
      modifies this`usedPages, bitmap
      ensures Valid()
      ensures r.Some? ==> FreeRun(old(Used()), Limit(), r.value, Wanted(num))
      ensures r.Some? ==> forall s: nat | s < r.value :: !FreeRun(old(Used()), Limit(), s, Wanted(num))
      ensures r.Some? ==> Used() == old(Used()) + Run(r.value, num) && usedPages == old(usedPages) + num
      ensures r.None? ==> forall s: nat :: !FreeRun(old(Used()), Limit(), s, Wanted(num))
      ensures r.None? ==> Used() == old(Used()) && usedPages == old(usedPages)
    {
      hide Used;
      r := FindRun(num);
      if r.None? {
        return;
      }
      assert Limit() <= 64 * bitmap.Length;
      Mark(r.value, num);
      usedPages := usedPages + num;
      RunSize(r.value, num);
      assert old(Used()) !! Run(r.value, num);
    }

    method Mark(start: nat, num: nat)
      requires start + num <= 64 * bitmap.Length
      modifies bitmap
      ensures Used() == old(Used()) + Run(start, num)
    {
      hide Used;
      var k := 0;
      while k < num
        invariant k <= num
        invariant Used() == old(Used()) + Run(start, k)
      {
        SetBit(start + k);
        k := k + 1;
      }
    }

    method FreeOne(n: nat)
      requires Valid() && n in Used() && n < 64 * bitmap.Length
      modifies this`usedPages, bitmap
      ensures Valid() && Used() == old(Used()) - {n} && usedPages == old(usedPages) - 1
    {
      ghost var before := Used();
      ClearBit(n);
      assert |before| == |before - {n}| + 1;
      usedPages := usedPages - 1;
    }

    /** page_free of `num` pages; a null address frees nothing. The pages have to be in use. */
    method Free(page: Option<nat>, num: nat)
      requires Valid()
      requires page.Some? ==> Run(page.value, num) <= Used() && page.value + num <= 64 * bitmap.Length
      modifies this`usedPages, bitmap
      ensures Valid()
      ensures page.None? ==> Used() == old(Used()) && usedPages == old(usedPages)
      ensures page.Some? ==> Used() == old(Used()) - Run(page.value, num) && usedPages == old(usedPages) - num
    {
      hide Used;
      if page.None? {
        return;
      }
      var k := 0;
      while k < num
        invariant k <= num
        invariant Valid()
        invariant Used() == old(Used()) - Run(page.value, k)
        invariant usedPages == old(usedPages) - k
      {
        assert page.value + k in Run(page.value, num);
        FreeOne(page.value + k);
        k := k + 1;
      }
    }

    /** Allocating and freeing again leaves the bitmap contents and the counter as they were. */
    method AllocFree(num: nat) returns (r: Option<nat>)
      requires Valid()
      modifies this`usedPages, bitmap
      ensures Valid() && Used() == old(Used()) && usedPages == old(usedPages)
    {
      r := Alloc(num);
      Free(r, num);
    }
  }
}
