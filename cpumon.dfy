/**
 * The CPU-usage monitor of the Gotham server application: a 1 ms interval
 * timer records, at each tick, whether the processor was busy, in a ring of
 * 16 x 64 history bits selected by a wrapping cursor.
 */
module CpuMon {
  import opened Wrappers
  import opened Abi
  import opened Arith

  const WORD_BITS: nat := 64
  const HISTORY_LEN: nat := 16
  /** `busy_history.len() as u32 * usize::BITS`. */
  const DENOMINATOR: nat := 1024
  const CURSOR_MOD: nat := 0x1_0000_0000_0000_0000

  /** The local SOLID_TIMER_TYPE_INTERVAL and the descriptor `init` registers. */
  const TIMER_TYPE_INTERVAL: u32 := 1
  const TIMER_HANDLER: TimerDesc := TimerDesc(0, TIMER_TYPE_INTERVAL, 1000, Trampoline, null)

  /** Bit `j` of a word. */
  predicate Bit(w: bv64, j: bv6) {
    (w >> j) & 1 == 1
  }

  /** The 64 bits of a word, least significant first. */
  function Bits(w: bv64): (r: seq<bool>)
    ensures |r| == 64
  {
    seq(64, j requires 0 <= j < 64 => Bit(w, j as bv6))
  }

  /** `count_ones()`. */
  function PopCount(w: bv64): (r: nat)
    ensures r <= 64
  {
    CountOn(Bits(w))
  }

  /** The sum of the words' `count_ones()`. */
  function SumBusy(s: seq<bv64>): (r: nat)
    ensures r <= WORD_BITS * |s|
  {
    if |s| == 0 then 0 else SumBusy(s[..|s| - 1]) + PopCount(s[|s| - 1])
  }

  /** The word and the bit a tick at `cursor` writes: `(cursor / usize::BITS) % 16` and `cursor % 64`. */
  function SlotWord(cursor: nat): nat { (cursor / WORD_BITS) % HISTORY_LEN }
  function SlotBit(cursor: nat): nat { cursor % WORD_BITS }

  /** `1usize.rotate_left(cursor as u32)`. */
  function MaskAt(cursor: nat): bv64 {
    (1 as bv64).RotateLeft(cursor % 0x1_0000_0000 % 64)
  }

  /** The word after recording: set bit `b` when busy, clear it when the tick was taken on WFI. */
  function Recorded(w: bv64, b: bv6, busy: bool): bv64 {
    if busy then w | ((1 as bv64) << b) else w & !((1 as bv64) << b)
  }

  /** The mask selects bit `cursor % 64`. */
  lemma MaskAtIsBit(cursor: nat)
    ensures MaskAt(cursor) == (1 as bv64) << (SlotBit(cursor) as bv6)
  {
    ModOfTruncation(cursor);
    RotateOne(cursor % 64);
  }

  /**
   * The handler's new word for the slot of `cursor`: `bmp & !mask` when the
   * tick was taken on WFI, `bmp | mask` otherwise. It records the tick's
   * busyness at bit `cursor % 64`.
   */
  function Stored(w: bv64, cursor: nat, takenOnWfi: bool): (r: bv64)
    ensures r == Recorded(w, SlotBit(cursor) as bv6, !takenOnWfi)
  {
    StoredRecords(w, cursor, takenOnWfi);
    if takenOnWfi then w & !MaskAt(cursor) else w | MaskAt(cursor)
  }

  lemma StoredRecords(w: bv64, cursor: nat, takenOnWfi: bool)
    ensures (if takenOnWfi then w & !MaskAt(cursor) else w | MaskAt(cursor))
            == Recorded(w, SlotBit(cursor) as bv6, !takenOnWfi)
  {
    MaskAtIsBit(cursor);
    StoreIsRecorded(w, MaskAt(cursor), SlotBit(cursor) as bv6, takenOnWfi);
  }

  lemma StoreIsRecorded(w: bv64, mask: bv64, b: bv6, takenOnWfi: bool)
    requires mask == (1 as bv64) << b
    ensures (if takenOnWfi then w & !mask else w | mask) == Recorded(w, b, !takenOnWfi)
  {
    if takenOnWfi {
      ClearIsRecorded(w, mask, b);
    } else {
      SetIsRecorded(w, mask, b);
    }
  }

  lemma ClearIsRecorded(w: bv64, mask: bv64, b: bv6)
    requires mask == (1 as bv64) << b
    ensures w & !mask == Recorded(w, b, false)
  {
  }

  lemma SetIsRecorded(w: bv64, mask: bv64, b: bv6)
    requires mask == (1 as bv64) << b
    ensures w | mask == Recorded(w, b, true)
  {
  }

  /** Recording changes bit `b` to `busy` and no other bit. */
  lemma RecordedBits(w: bv64, b: bv6, busy: bool, j: bv6)
    ensures Bit(Recorded(w, b, busy), j) == (if j == b then busy else Bit(w, j))
  {
    if busy && j == b {
      SetSame(w, b);
    } else if busy {
      SetOther(w, b, j);
    } else if j == b {
      ClearSame(w, b);
    } else {
      ClearOther(w, b, j);
    }
  }

  lemma SetSame(w: bv64, b: bv6)
    ensures Bit(w | ((1 as bv64) << b), b)
  {
  }

  lemma SetOther(w: bv64, b: bv6, j: bv6)
    requires j != b
    ensures Bit(w | ((1 as bv64) << b), j) == Bit(w, j)
  {
  }

  lemma ClearSame(w: bv64, b: bv6)
    ensures !Bit(w & !((1 as bv64) << b), b)
  {
  }

  lemma ClearOther(w: bv64, b: bv6, j: bv6)
    requires j != b
    ensures Bit(w & !((1 as bv64) << b), j) == Bit(w, j)
  {
  }

  /** Positions below 64 convert to distinct `bv6` values. */
  lemma PositionConv(j: nat, b: bv6)
    requires j < 64
    ensures (j as bv6 == b) <==> j == b as int
  {
  }

  /** Recording writes `busy` into bit `b`, and only there. */
  lemma RecordedAllBits(w: bv64, b: bv6, busy: bool)
    ensures forall jb: bv6 :: Bit(Recorded(w, b, busy), jb) == (if jb == b then busy else Bit(w, jb))
  {
    forall jb: bv6
      ensures Bit(Recorded(w, b, busy), jb) == (if jb == b then busy else Bit(w, jb))
    {
      RecordedBits(w, b, busy, jb);
    }
  }

  /** A word that differs from `w` only by bit `b` being `busy` has `Bits(w)[b := busy]`. */
  lemma BitsUpdate(w: bv64, r: bv64, b: bv6, busy: bool)
    requires forall jb: bv6 :: Bit(r, jb) == (if jb == b then busy else Bit(w, jb))
    ensures Bits(r) == Bits(w)[b as int := busy]
  {
    forall j: nat | j < 64
      ensures Bits(r)[j] == Bits(w)[b as int := busy][j]
    {
      BitsExcept(w, r, b, busy, j);
    }
  }

  /** Entry `j` of `Bits(w)` is bit `j` of `w`. */
  lemma BitsAt(w: bv64, j: nat)
    requires j < 64
    ensures Bits(w)[j] == Bit(w, j as bv6)
  {
  }

  lemma BitsExcept(w: bv64, r: bv64, b: bv6, busy: bool, j: nat)
    requires j < 64
    requires forall jb: bv6 :: Bit(r, jb) == (if jb == b then busy else Bit(w, jb))
    ensures Bits(r)[j] == (if j == b as int then busy else Bits(w)[j])
  {
    BitsAt(r, j);
    BitsAt(w, j);
    PositionConv(j, b);
  }

  /** A word that differs from `w` only by bit `b` being `busy` has its count moved by that bit alone. */
  lemma PopCountExcept(w: bv64, r: bv64, b: bv6, busy: bool)
    requires forall jb: bv6 :: Bit(r, jb) == (if jb == b then busy else Bit(w, jb))
    ensures PopCount(r) == PopCount(w) - (if Bit(w, b) then 1 else 0) + (if busy then 1 else 0)
  {
    BitsUpdate(w, r, b, busy);
    BitsAt(w, b as int);
    PositionConv(b as int, b);
    CountOnUpdate(Bits(w), b as int, busy);
  }

  /** Recording moves the population count by at most one, following the recorded bit. */
  lemma PopCountRecorded(w: bv64, b: bv6, busy: bool)
    ensures PopCount(Recorded(w, b, busy))
            == PopCount(w) - (if Bit(w, b) then 1 else 0) + (if busy then 1 else 0)
  {
    RecordedAllBits(w, b, busy);
    PopCountExcept(w, Recorded(w, b, busy), b, busy);
  }

  /** Replacing one word changes the sum by the difference of the two words' counts. */
  lemma {:induction false} SumBusyUpdate(s: seq<bv64>, i: nat, v: bv64)
    requires i < |s|
    ensures SumBusy(s[i := v]) == SumBusy(s) - PopCount(s[i]) + PopCount(v)
  {
    var n := |s| - 1;
    if i < n {
      assert s[i := v][..n] == s[..n][i := v];
      SumBusyUpdate(s[..n], i, v);
    } else {
      assert s[i := v][..n] == s[..n];
    }
  }

  /** Recording one bit of one word moves the sum by that bit alone. */
  lemma RecordSum(s: seq<bv64>, i: nat, b: bv6, busy: bool)
    requires i < |s|
    ensures SumBusy(s[i := Recorded(s[i], b, busy)])
            == SumBusy(s) - (if Bit(s[i], b) then 1 else 0) + (if busy then 1 else 0)
  {
    SumBusyUpdate(s, i, Recorded(s[i], b, busy));
    PopCountRecorded(s[i], b, busy);
  }

  /** A cursor's slot is its position `cursor % 1024` in the ring, word-major. */
  lemma SlotPosition(cursor: nat)
    ensures SlotWord(cursor) * WORD_BITS + SlotBit(cursor) == cursor % DENOMINATOR
  {
    var q := cursor / 64;
    assert cursor == q * 64 + cursor % 64;
    assert q == (q / 16) * 16 + q % 16;
    assert cursor == (q / 16) * 1024 + ((q % 16) * 64 + cursor % 64);
    DivModUnique(cursor, 1024, q / 16, (q % 16) * 64 + cursor % 64);
  }

  /** The wrapping increment keeps the ring position, since 1024 divides 2^64. */
  lemma WrapKeepsPosition(x: nat)
    ensures (x % CURSOR_MOD) % DENOMINATOR == x % DENOMINATOR
  {
    var q := x / CURSOR_MOD;
    assert x == q * CURSOR_MOD + x % CURSOR_MOD;
    assert q * CURSOR_MOD == (q * 0x40_0000_0000_0000) * 1024;
  }

  /** Two cursors share a slot exactly when they agree modulo 1024. */
  lemma SlotsAgree(a: nat, b: nat)
    ensures (SlotWord(a) == SlotWord(b) && SlotBit(a) == SlotBit(b)) <==> a % DENOMINATOR == b % DENOMINATOR
  {
    SlotPosition(a);
    SlotPosition(b);
  }

  /**
   * After `k` further ticks (1 <= k <= 1024) the cursor is back at the same
   * slot exactly when `k == 1024`: every slot is revisited after 1024 ticks
   * and not before.
   */
  lemma SlotsCycle(cursor: u64, k: nat)
    requires 1 <= k <= DENOMINATOR
    ensures var c := (cursor + k) % CURSOR_MOD;
            (SlotWord(c) == SlotWord(cursor) && SlotBit(c) == SlotBit(cursor)) <==> k == DENOMINATOR
  {
    var c := (cursor + k) % CURSOR_MOD;
    WrapKeepsPosition(cursor + k);
    SlotsAgree(c, cursor);
    AdvanceMod(cursor, k);
  }

  /** Advancing by `k` in 1..1024 returns to the same residue modulo 1024 only for `k == 1024`. */
  lemma AdvanceMod(x: nat, k: nat)
    requires 1 <= k <= 1024
    ensures (x + k) % 1024 == x % 1024 <==> k == 1024
  {
    var q, r := x / 1024, x % 1024;
    assert x == q * 1024 + r;
    assert (q + 1) * 1024 == q * 1024 + 1024;
    if k == 1024 {
      DivModUnique(x + k, 1024, q + 1, r);
    } else if r + k < 1024 {
      DivModUnique(x + k, 1024, q, r + k);
    } else {
      DivModUnique(x + k, 1024, q + 1, r + k - 1024);
    }
  }

  /** Every one of the 16 x 64 slots is reached within the next 1024 ticks. */
  lemma SlotsCover(cursor: u64, word: nat, bit: nat) returns (k: nat)
    requires word < HISTORY_LEN && bit < WORD_BITS
    ensures k < DENOMINATOR
    ensures SlotWord((cursor + k) % CURSOR_MOD) == word && SlotBit((cursor + k) % CURSOR_MOD) == bit
  {
    var p := word * 64 + bit;
    var c := cursor % 1024;
    k := if p >= c then p - c else p + 1024 - c;
    var q := cursor / DENOMINATOR;
    assert cursor == q * 1024 + c;
    if p >= c {
      assert cursor + k == q * 1024 + p;
      DivModUnique(cursor + k, 1024, q, p);
    } else {
      assert cursor + k == (q + 1) * 1024 + p;
      DivModUnique(cursor + k, 1024, q + 1, p);
    }
    var x := (cursor + k) % CURSOR_MOD;
    WrapKeepsPosition(cursor + k);
    SlotPosition(x);
    DivModUnique(p, 64, word, bit);
    DivModUnique(p, 64, SlotWord(x), SlotBit(x));
  }

  /** The usage numerator never exceeds the denominator. */
  lemma UsageBounded(s: seq<bv64>)
    requires |s| == HISTORY_LEN
    ensures SumBusy(s) <= DENOMINATOR
  {
  }

  /** The history after a tick at cursor `c`: its slot's word records the tick's busyness. */
  function Ticked(h: seq<bv64>, c: nat, takenOnWfi: bool): seq<bv64>
    requires |h| == HISTORY_LEN
  {
    h[SlotWord(c) := Recorded(h[SlotWord(c)], SlotBit(c) as bv6, !takenOnWfi)]
  }

  /** A tick moves the busy count by the recorded bit alone. */
  lemma TickedSum(h: seq<bv64>, c: nat, takenOnWfi: bool)
    requires |h| == HISTORY_LEN
    ensures SumBusy(Ticked(h, c, takenOnWfi)) == SumBusy(h)
              - (if Bit(h[SlotWord(c)], SlotBit(c) as bv6) then 1 else 0)
              + (if takenOnWfi then 0 else 1)
  {
    RecordSum(h, SlotWord(c), SlotBit(c) as bv6, !takenOnWfi);
  }

  /**
   * The monitor's statics: `STATE.cursor`, `STATE.busy_history` and the
   * `INITED` flag of `init`, with a ghost count of timer registrations.
   */
  class Monitor {
    var cursor: u64
    const history: array<bv64>
    var inited: bool
    ghost var registrations: nat

    ghost predicate Valid() reads this {
      history.Length == HISTORY_LEN && registrations == (if inited then 1 else 0)
    }

    constructor ()
      ensures Valid() && fresh(history)
      ensures cursor == 0 && !inited && history[..] == seq(HISTORY_LEN, _ => 0 as bv64)
    {
      cursor := 0;
      history := new bv64[HISTORY_LEN](_ => 0);
      inited := false;
      registrations := 0;
    }

    /**
     * `timer_handler`: advance the cursor (wrapping) and record the tick's
     * busyness in the slot of the old cursor. `takenOnWfi` is the WFI probe.
     */
    method Tick(takenOnWfi: bool)
      requires Valid()
      modifies this`cursor, history
      ensures Valid()
      ensures cursor == (old(cursor) + 1) % CURSOR_MOD
      ensures SlotWord(old(cursor)) < HISTORY_LEN && SlotBit(old(cursor)) < WORD_BITS
      ensures history[..] == Ticked(old(history[..]), old(cursor), takenOnWfi)
      ensures SumBusy(history[..]) == SumBusy(old(history[..]))
                - (if Bit(old(history[..])[SlotWord(old(cursor))], SlotBit(old(cursor)) as bv6) then 1 else 0)
                + (if takenOnWfi then 0 else 1)
    {
      var c := cursor;
      TickedSum(history[..], c, takenOnWfi);
      cursor := (c + 1) % CURSOR_MOD;
      Store(c, takenOnWfi);
    }

    /** The read-modify-store of one `busy_history` word at the slot of `c`. */
    method Store(c: u64, takenOnWfi: bool)
      requires Valid()
      modifies history
      ensures history[..] == Ticked(old(history[..]), c, takenOnWfi)
    {
      var i := (c / 64) % 16;
      var bmp := Stored(history[i], c, takenOnWfi);
      history[i] := bmp;
    }

    /**
     * `init`: register the monitor's timer the first time only;
     * `assert_eq!(ret, 0)` panics on any other status.
     */
    method Init(m: Machine, status: i32) returns (r: Outcome<Unit>)
      requires Valid()
      modifies this`inited, this`registrations, m`log
      ensures Valid() && inited && registrations <= 1
      ensures old(inited) ==> r == Ret(Unit) && m.log == old(m.log) && registrations == old(registrations)
      ensures !old(inited) ==>
                && m.log == old(m.log) + [TimerRegister(TIMER_HANDLER, m.IsMasked())]
                && registrations == old(registrations) + 1
                && (r == Ret(Unit) <==> status == SOLID_ERR_OK)
                && (r.Panic? <==> status != SOLID_ERR_OK)
    {
      var was := inited;
      inited := true;
      if was {
        return Ret(Unit);
      }
      m.Record(TimerRegister(TIMER_HANDLER, m.IsMasked()));
      registrations := registrations + 1;
      if status != SOLID_ERR_OK {
        return Panic("assertion `left == right` failed");
      }
      return Ret(Unit);
    }

    /**
     * `current_cpu_usage` before its final division: the number of busy
     * ticks in the history and the number of slots.
     */
    function Usage(): (r: (nat, nat))
      requires Valid()
      reads this, history
      ensures r.1 == DENOMINATOR && r.0 <= r.1
      ensures r.0 == SumBusy(history[..])
    {
      UsageBounded(history[..]);
      (SumBusy(history[..]), DENOMINATOR)
    }
  }
}
