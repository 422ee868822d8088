/** The record log that LPC2k_ee.c keeps in the on-chip flash of the Pelican autopilot.

    Flash programming can only clear bits (modelled as bitwise AND), erasing sets every bit.
    Records are written one after another; the first free slot is found by halving. Region,
    record and page sizes are parameters restricted to the combinations that LPC2k_ee.h
    declares valid. */
module FlashLog {
  import opened Masks
  import opened Wrappers

  const BLANK: bv8 := 0xFF
  const EE_REC_ID: bv8 := 0xAA
  const NO_RECORDS_AVAILABLE := 500
  const NO_SPACE_IN_EEPROM := 501
  const INDEX_OUT_OF_RANGE := 502
  const COMPARE_ERROR := 10

  type Record = seq<bv8>

  /** Flash bytes hold a log: the records fill a prefix of the slots, the rest is blank. */
  ghost predicate Stores(flash: seq<bv8>, rec: nat, slots: nat, log: seq<Record>) {
    && rec > 0
    && |flash| == slots * rec
    && |log| <= slots
    && (forall k :: 0 <= k < |log| ==> |log[k]| == rec && log[k][0] == EE_REC_ID)
    && (forall k, i :: 0 <= k < |log| && 0 <= i < rec ==> At(flash, rec, slots, k, i) == log[k][i])
    && (forall k, i :: |log| <= k < slots && 0 <= i < rec ==> At(flash, rec, slots, k, i) == BLANK)
  }

  lemma SlotInside(rec: nat, slots: nat, k: nat, i: nat)
    requires k < slots && i < rec
    ensures k * rec + i < slots * rec
    ensures (k + 1) * rec <= slots * rec
  {
    AtLeastOne(slots - k, rec);
    assert slots * rec == k * rec + (slots - k) * rec;
    assert (k + 1) * rec == k * rec + rec;
  }

  /** Byte `i` of slot `k`. */
  function At(flash: seq<bv8>, rec: nat, slots: nat, k: nat, i: nat): bv8
    requires |flash| == slots * rec && k < slots && i < rec
  {
    SlotInside(rec, slots, k, i);
    flash[k * rec + i]
  }

  /** The bytes alone determine the log: the ghost field of the class adds nothing. */
  lemma LogDetermined(flash: seq<bv8>, rec: nat, slots: nat, a: seq<Record>, b: seq<Record>)
    requires Stores(flash, rec, slots, a) && Stores(flash, rec, slots, b)
    ensures a == b
  {
    assert |a| < slots ==> At(flash, rec, slots, |a|, 0) == BLANK;
    assert |b| < slots ==> At(flash, rec, slots, |b|, 0) == BLANK;
    assert |a| == |b|;
    forall k | 0 <= k < |a|
      ensures a[k] == b[k]
    {
      forall i | 0 <= i < rec
        ensures a[k][i] == b[k][i]
      {
        assert At(flash, rec, slots, k, i) == a[k][i];
      }
    }
  }

  function Log2(n: nat): nat
    requires n > 0
  {
    if n == 1 then 0 else 1 + Log2(n / 2)
  }

  /** Log2 is the binary logarithm rounded down. */
  lemma {:induction false} Log2IsFloor(n: nat)
    requires n > 0
    ensures Pow2(Log2(n)) <= n < 2 * Pow2(Log2(n))
  {
    if n > 1 {
      Log2IsFloor(n / 2);
    }
  }

  lemma Log2Half(d: nat, half: nat)
    requires half > 0 && (d == 2 * half || d == 2 * half + 1)
    ensures Log2(d) == 1 + Log2(half)
    ensures Log2(1) == 0
  {}

  lemma HalfSum(l: nat, r: nat, h: nat)
    ensures (l * (2 * h) + r * (2 * h)) / 2 == (l + r) * h
  {
    assert l * (2 * h) == 2 * (l * h);
    assert r * (2 * h) == 2 * (r * h);
    assert (l + r) * h == l * h + r * h;
  }

  /** The middle of two boundaries in units of rec, an even number. */
  lemma Middle(l: nat, r: nat, rec: nat, h: nat, m: nat)
    requires l <= r && h > 0 && rec == 2 * h && m == (l * rec + r * rec) / 2
    ensures if (r - l) % 2 == 0 then m == ((l + r) / 2) * rec && m % rec == 0 else m % rec == h
  {
    HalfSum(l, r, h);
    var q := (l + r) / 2;
    EvenHalves(q, h);
    if (r - l) % 2 == 0 {
      assert l + r == 2 * q;
      DivUnique(m, q, 0, rec);
    } else {
      assert l + r == 2 * q + 1;
      assert (2 * q + 1) * h == (2 * q) * h + h;
      DivUnique(m, q, h, rec);
    }
  }

  /** The middle of two slot boundaries is a slot boundary exactly when their distance is
      even; otherwise it is half a record off. */
  lemma Midpoint(l: nat, r: nat, recLog: nat)
    requires l <= r && recLog > 0
    ensures var rec := Pow2(recLog); var m := (l * rec + r * rec) / 2;
      if (r - l) % 2 == 0 then m == ((l + r) / 2) * rec && And(m, rec - 1) == 0
      else And(m, rec - 1) != 0
  {
    var rec, h := Pow2(recLog), Pow2(recLog - 1);
    assert rec == 2 * h;
    var m := (l * rec + r * rec) / 2;
    Middle(l, r, rec, h, m);
    MaskIsMod(m, recLog);
  }

  lemma MultipleOfPart(a: nat, page: nat, rec: nat)
    requires page > 0 && rec > 0 && a % page == 0 && page % rec == 0
    ensures a == (a / rec) * rec
  {
    ModOfMultiple(page, a / page, rec);
    assert a == (a / page) * page;
  }

  lemma EvenHalves(q: nat, h: nat)
    ensures (2 * q) * h == q * (2 * h)
  {}

  /** An address that is a multiple of the record size, cut at the page size. */
  lemma MaskedParts(x: nat, rec: nat, page: nat, top: nat)
    requires rec <= page <= top && x % Pow2(rec) == 0 && x < Pow2(top)
    ensures Pow2(rec) <= Pow2(page) <= Pow2(top)
    ensures And(x, Pow2(page) - Pow2(rec)) == x % Pow2(page)
    ensures And(x, Pow2(top) - Pow2(page)) == x - x % Pow2(page)
  {
    hide And, Pow2;
    LowWhole(x, top);
    MaskedLow(x, rec, page, top);
  }

  lemma MaskedLow(x: nat, rec: nat, page: nat, top: nat)
    requires rec <= page <= top && Low(x, rec) == 0 && Low(x, top) == x
    ensures Pow2(rec) <= Pow2(page) <= Pow2(top)
    ensures And(x, Pow2(page) - Pow2(rec)) == Low(x, page)
    ensures And(x, Pow2(top) - Pow2(page)) == x - Low(x, page)
  {
    hide Low, And, Pow2;
    ShiftedMask(x, page, rec);
    ShiftedMask(x, top, page);
  }

  lemma LowWhole(x: nat, n: nat)
    requires x < Pow2(n)
    ensures Low(x, n) == x
  {
    DivUnique(x, 0, x, Pow2(n));
  }

  lemma MaskIsMod(x: nat, e: nat)
    ensures And(x, Pow2(e) - 1) == x % Pow2(e)
  {
    MaskKeepsBits(x, e, 0);
    assert Pow2(0) == 1;
  }

  // ------------------------------------------------------------ flash cells

  /** Programming a cell can only clear bits. */
  function Program(cell: bv8, value: bv8): bv8 { cell & value }

  lemma ProgramNeutral(b: bv8)
    ensures Program(BLANK, b) == b && Program(b, BLANK) == b
  {}

  lemma SlotsDisjoint(rec: nat, j: nat, k: nat, i: nat)
    requires i < rec && j != k
    ensures !(k * rec <= j * rec + i < k * rec + rec)
  {
    if j < k {
      AtLeastOne(k - j, rec);
      assert (k - j) * rec == k * rec - j * rec;
    } else {
      AtLeastOne(j - k, rec);
      assert (j - k) * rec == j * rec - k * rec;
    }
  }

  lemma BlankStores(flash: seq<bv8>, rec: nat, slots: nat)
    requires rec > 0 && |flash| == slots * rec && forall q :: 0 <= q < |flash| ==> flash[q] == BLANK
    ensures Stores(flash, rec, slots, [])
  {
    forall k, i | 0 <= k < slots && 0 <= i < rec
      ensures At(flash, rec, slots, k, i) == BLANK
    {
      SlotInside(rec, slots, k, i);
    }
  }

  /** Programming a page that is blank but for a record fills the record's place, if that was
      blank, and changes nothing else. */
  lemma SlotProgrammed(before: seq<bv8>, after: seq<bv8>, page: seq<bv8>, start: nat, offset: nat, at: nat, record: Record)
    requires |after| == |before| && start + |page| <= |before| && offset + |record| <= |page| && at == start + offset
    requires forall q {:trigger after[q]} :: 0 <= q < |after| ==>
      after[q] == if start <= q < start + |page| then Program(before[q], page[q - start]) else before[q]
    requires forall q :: 0 <= q < |page| ==>
      page[q] == if offset <= q < offset + |record| then record[q - offset] else BLANK
    requires BlankFrom(before, at, |record|)
    ensures Filled(before, after, at, record)
  {
    hide Program;
    forall q | 0 <= q < |after|
      ensures after[q] == if at <= q < at + |record| then record[q - at] else before[q]
    {
      ProgramNeutral(before[q]);
      if at <= q < at + |record| {
        ProgramNeutral(record[q - at]);
      }
    }
  }

  predicate BlankFrom(bytes: seq<bv8>, at: int, length: int) {
    forall q :: 0 <= q < |bytes| && at <= q < at + length ==> bytes[q] == BLANK
  }

  /** The bytes from `at` on are the record, the others unchanged. */
  ghost predicate Filled(before: seq<bv8>, after: seq<bv8>, at: int, record: Record) {
    && |after| == |before|
    && forall q {:trigger after[q]} :: 0 <= q < |after| ==>
      after[q] == if at <= q < at + |record| then record[q - at] else before[q]
  }

  /** Filling the first free slot and nothing else appends to the log. */
  lemma FillAppends(flash: seq<bv8>, flash': seq<bv8>, rec: nat, slots: nat, log: seq<Record>, record: Record)
    requires Stores(flash, rec, slots, log) && |log| < slots
    requires |record| == rec && record[0] == EE_REC_ID
    requires Filled(flash, flash', |log| * rec, record)
    ensures Stores(flash', rec, slots, log + [record])
  {
    forall k, i | 0 <= k < slots && 0 <= i < rec
      ensures At(flash', rec, slots, k, i) == if k == |log| then record[i] else At(flash, rec, slots, k, i)
    {
      SlotInside(rec, slots, k, i);
      if k != |log| {
        SlotsDisjoint(rec, k, |log|, i);
      }
    }
  }

  /** A multiple of d below n, itself a multiple of d, leaves room for d more. */
  lemma RoomForOne(p: nat, d: nat, n: nat)
    requires d > 0 && n % d == 0 && p < n
    ensures p - p % d + d <= n
  {
    var q, c := p / d, n / d;
    assert p - p % d == q * d && n == c * d;
    assert q < c by {
      assert (q - c) * d == q * d - c * d;
      assert q - c >= 0 ==> (q - c) * d >= 0;
    }
    AtLeastOne(c - q, d);
    assert (c - q) * d == c * d - q * d;
  }

  /** The masks of LPC2k_ee.h are differences of powers of two, in every valid combination
      of the table there. */
  lemma MasksMatchHeader()
    ensures Pow2(32) - Pow2(8) == 0xFFFFFF00 && Pow2(32) - Pow2(9) == 0xFFFFFE00
    ensures Pow2(8) - Pow2(4) == 0xF0 && Pow2(8) - Pow2(5) == 0xE0 && Pow2(8) - Pow2(6) == 0xC0
    ensures Pow2(8) - Pow2(7) == 0x80 && Pow2(8) - Pow2(8) == 0
    ensures Pow2(9) - Pow2(4) == 0x1F0 && Pow2(9) - Pow2(5) == 0x1E0 && Pow2(9) - Pow2(6) == 0x1C0
    ensures Pow2(9) - Pow2(7) == 0x180 && Pow2(9) - Pow2(8) == 0x100 && Pow2(9) - Pow2(9) == 0
    ensures Pow2(8) == 256 && Pow2(9) == 512
  {
    assert Pow2(8) == 16 * Pow2(4) == 256;
    assert Pow2(16) == 256 * Pow2(8);
    assert Pow2(24) == 256 * Pow2(16);
    assert Pow2(32) == 256 * Pow2(24);
  }

  lemma Distribute(a: int, b: int, c: int)
    ensures (a + b) * c == a * c + b * c
  {}

  lemma TwiceMiddle(l: int, r: int, m: int, c: int)
    requires l + r == 2 * m
    ensures 2 * (m * c) == l * c + r * c
  {
    Distribute(l, r, c);
    assert (2 * m) * c == 2 * (m * c);
  }

  class Eeprom {
    const addrL: nat
    const slots: nat
    const recLog: nat
    const pageLog: nat
    const flash: array<bv8>
    ghost var log: seq<Record>

    function RecSize(): (rec: nat)
      ensures rec > 0
    {
      Pow2(recLog)
    }

    function PageSize(): nat { Pow2(pageLog) }

    function AddrEnd(): nat { addrL + flash.Length }

    /** The combinations that the header allows: 256- or 512-byte pages, records of 16 bytes
        up to a page, a region of whole pages that an `int` address can reach. */
    ghost predicate Geometry() {
      && (pageLog == 8 || pageLog == 9)
      && 4 <= recLog <= pageLog
      && slots > 0
      && addrL % PageSize() == 0
      && (slots * RecSize()) % PageSize() == 0
      && AddrEnd() < 0x8000_0000
      && flash.Length == slots * RecSize()
    }

    ghost predicate Valid()
      reads this, flash
    {
      Geometry() && 0 < slots && |log| <= slots && Stores(flash[..], RecSize(), slots, log)
    }

    constructor (addrL: nat, slots: nat, recLog: nat, pageLog: nat)
      requires pageLog == 8 || pageLog == 9
      requires 4 <= recLog <= pageLog && slots > 0
      requires addrL % Pow2(pageLog) == 0 && (slots * Pow2(recLog)) % Pow2(pageLog) == 0
      requires addrL + slots * Pow2(recLog) < 0x8000_0000
      ensures Geometry() && fresh(flash)
      ensures this.addrL == addrL && this.slots == slots && this.recLog == recLog && this.pageLog == pageLog
    {
      this.addrL, this.slots, this.recLog, this.pageLog := addrL, slots, recLog, pageLog;
      flash := new bv8[slots * Pow2(recLog)];
      log := [];
    }

    lemma AddressAligned()
      requires Geometry()
      ensures recLog >= 4 && addrL == (addrL / RecSize()) * RecSize()
      ensures PageSize() % RecSize() == 0
    {
      hide Pow2;
      Pow2Monotone(recLog, pageLog);
      MultipleOfPart(addrL, PageSize(), RecSize());
    }

    /** `*((unsigned char *)addr) == 0xFF` */
    predicate BlankAt(addr: int)
      requires addrL <= addr < AddrEnd()
      reads this, flash
    {
      flash[addr - addrL] == BLANK
    }

    /** `*((unsigned char *)addr) == EE_REC_ID` */
    predicate RecordAt(addr: int)
      requires addrL <= addr < AddrEnd()
      reads this, flash
    {
      flash[addr - addrL] == EE_REC_ID
    }

    /** Address of slot boundary `k`. */
    function SlotAddr(k: int): int { addrL + k * RecSize() }

    lemma SlotAddrStep(k: int)
      requires Geometry()
      ensures SlotAddr(k - 1) == SlotAddr(k) - RecSize()
      ensures SlotAddr(0) == addrL && SlotAddr(slots) == AddrEnd()
    {
      assert (k - 1) * RecSize() == k * RecSize() - RecSize();
    }

    lemma SlotAddrGap(l: int, r: int)
      requires l < r
      ensures SlotAddr(r) - SlotAddr(l) >= RecSize()
      ensures SlotAddr(r) - SlotAddr(l) == RecSize() <==> r == l + 1
    {
      var rec := RecSize();
      assert (r - l) * rec == r * rec - l * rec;
      AtLeastOne(r - l, rec);
      if r - l > 1 {
        AtLeastOne(r - l - 1, rec);
        assert (r - l - 1) * rec == (r - l) * rec - rec;
      }
    }

    lemma SlotAddrOdd(l: nat, r: nat)
      requires Geometry() && l < r && (r - l) % 2 == 1
      ensures 0 <= SlotAddr(l) <= SlotAddr(r)
      ensures And((SlotAddr(r) + SlotAddr(l)) / 2, RecSize() - 1) != 0
    {
      hide Geometry, Pow2, And;
      var rec := RecSize();
      var base := addrL / rec;
      AddressAligned();
      Distribute(base, l, rec);
      Distribute(base, r, rec);
      Midpoint(base + l, base + r, recLog);
      SlotAddrGap(l, r);
    }

    lemma SlotAddrEven(l: nat, half: nat)
      requires Geometry() && half > 0
      ensures 0 <= SlotAddr(l) <= SlotAddr(l + 2 * half)
      ensures var mid := (SlotAddr(l + 2 * half) + SlotAddr(l)) / 2;
        && And(mid, RecSize() - 1) == 0
        && mid == SlotAddr(l + half)
        && 2 * mid == SlotAddr(l) + SlotAddr(l + 2 * half)
    {
      hide Geometry, Pow2, And;
      var rec := RecSize();
      var base := addrL / rec;
      AddressAligned();
      Distribute(base, l, rec);
      Distribute(base, l + 2 * half, rec);
      Midpoint(base + l, base + l + 2 * half, recLog);
      Distribute(base, l + half, rec);
      TwiceMiddle(l, l + 2 * half, l + half, rec);
      SlotAddrGap(l, l + 2 * half);
    }

    lemma FirstByte(k: nat)
      requires Valid() && k < slots
      ensures addrL <= SlotAddr(k) < AddrEnd()
      ensures RecordAt(SlotAddr(k)) <==> k < |log|
      ensures BlankAt(SlotAddr(k)) <==> k >= |log|
    {
      SlotInside(RecSize(), slots, k, 0);
      assert At(flash[..], RecSize(), slots, k, 0) == flash[k * RecSize()];
    }

    /** The odd branch of the search: give up one slot, at the end that cannot hold the
        boundary, so that an even number remains. */
    method DropOne(addrLo: int, addrHi: int, ghost l: nat, ghost r: nat)
      returns (lo: int, hi: int, ghost l': nat, ghost r': nat)
      requires Valid()
      requires l < |log| <= r <= slots && r - l >= 2
      requires addrLo == SlotAddr(l) && addrHi == SlotAddr(r)
      ensures l <= l' < |log| <= r' <= r && r' - l' == r - l - 1
      ensures lo == SlotAddr(l') && hi == SlotAddr(r')
      ensures hi - lo == addrHi - addrLo - RecSize()
    {
      hide BlankAt, RecordAt, SlotAddr, Stores, Pow2, RecSize, Geometry;
      lo, hi, l', r' := addrLo, addrHi, l, r;
      FirstByte(r - 1);
      SlotAddrStep(r);
      SlotAddrStep(l + 1);
      if BlankAt(addrHi - RecSize()) {
        hi := addrHi - RecSize();
        r' := r - 1;
      } else {
        lo := addrLo + RecSize();
        l' := l + 1;
      }
    }

    /** The middle of the search interval, after an odd number of slots has been made even. */
    method FindMiddle(addrLo: int, addrHi: int, size: int, ghost l: nat, ghost r: nat)
      returns (lo: int, hi: int, mid: int, left: int, ghost l': nat, ghost r': nat)
      requires Valid()
      requires l < |log| <= r <= slots && r - l >= 2
      requires addrLo == SlotAddr(l) && addrHi == SlotAddr(r) && size == addrHi - addrLo
      ensures l <= l' < |log| <= r' <= r && r' - l' == 2 * ((r - l) / 2)
      ensures lo == SlotAddr(l') && hi == SlotAddr(r') && mid == SlotAddr(l' + (r - l) / 2)
      ensures left == hi - lo == 2 * (mid - lo) == 2 * (hi - mid)
    {
      hide BlankAt, RecordAt, SlotAddr, And, Stores, Pow2, RecSize, Geometry;
      ghost var half := (r - l) / 2;
      lo, hi, left, l', r' := addrLo, addrHi, size, l, r;
      if r - l == 2 * half {
        SlotAddrEven(l, half);
      } else {
        SlotAddrOdd(l, r);
      }
      mid := (addrHi + addrLo) / 2;
      if And(mid, RecSize() - 1) != 0 {
        lo, hi, l', r' := DropOne(addrLo, addrHi, l, r);
        SlotAddrEven(l', half);
        mid := (hi + lo) / 2;
        left := size - RecSize();
      }
    }

    /** ee_locate: halving search for the first free slot. */
    method Locate() returns (location: int, ghost halvings: nat)
      requires Valid()
      ensures location == if |log| == slots then -1 else SlotAddr(|log|)
      ensures halvings == if 0 < |log| < slots then Log2(slots) else 0
    {
      hide BlankAt, RecordAt, SlotAddr, And, Stores, Log2, Pow2, RecSize, Geometry;
      halvings := 0;
      SlotAddrStep(slots);
      FirstByte(0);
      FirstByte(slots - 1);
      var rec := RecSize();
      var addrLo: int := addrL;
      if BlankAt(addrLo) {
        return addrLo, halvings;
      }
      var addrHi: int := AddrEnd();
      if RecordAt(addrHi - rec) {
        return -1, halvings;
      }
      var size := addrHi - addrLo;
      ghost var l, r := 0, slots;
      Log2Half(2, 1);
      while size != rec
        invariant 0 <= l < |log| <= r <= slots
        invariant addrLo == SlotAddr(l) && addrHi == SlotAddr(r)
        invariant size == addrHi - addrLo
        invariant halvings + Log2(r - l) == Log2(slots)
        decreases r - l
      {
        SlotAddrGap(l, r);
        ghost var half := (r - l) / 2;
        Log2Half(r - l, half);
        var addrMid;
        addrLo, addrHi, addrMid, size, l, r := FindMiddle(addrLo, addrHi, size, l, r);
        FirstByte(l + half);
        if BlankAt(addrMid) {
          addrHi := addrMid;
          r := l + half;
        } else {
          addrLo := addrMid;
          l := l + half;
        }
        size := size / 2;
        halvings := halvings + 1;
      }
      SlotAddrGap(l, r);
      return addrHi, halvings;
    }

    /** IAP command 51, "copy RAM to flash": programs one whole page. */
    method ProgramPage(start: nat, buffer: array<bv8>)
      requires buffer != flash && start + buffer.Length <= flash.Length
      modifies flash
      ensures forall q :: 0 <= q < flash.Length ==>
        flash[q] == if start <= q < start + buffer.Length then Program(old(flash[q]), buffer[q - start]) else old(flash[q])
    {
      hide Program;
      var i := 0;
      while i < buffer.Length
        invariant 0 <= i <= buffer.Length
        invariant forall q :: 0 <= q < flash.Length ==>
          flash[q] == if start <= q < start + i then Program(old(flash[q]), buffer[q - start]) else old(flash[q])
      {
        flash[start + i] := Program(flash[start + i], buffer[i]);
        i := i + 1;
      }
    }

    /** IAP command 56: byte-wise comparison with RAM. */
    method Compare(record: Record, at: nat) returns (code: nat)
      requires at + |record| <= flash.Length
      ensures code == if flash[at..at + |record|] == record then 0 else COMPARE_ERROR
    {
      var i := 0;
      while i < |record|
        invariant 0 <= i <= |record|
        invariant flash[at..at + i] == record[..i]
      {
        if flash[at + i] != record[i] {
          assert flash[at..at + |record|][i] != record[i];
          return COMPARE_ERROR;
        }
        assert flash[at..at + i + 1] == flash[at..at + i] + [flash[at + i]];
        i := i + 1;
      }
      assert record[..|record|] == record;
      return 0;
    }

    /** The sectors are erased: every cell back to 0xFF. */
    method EraseCells()
      modifies flash
      ensures forall q :: 0 <= q < flash.Length ==> flash[q] == BLANK
    {
      var i := 0;
      while i < flash.Length
        invariant 0 <= i <= flash.Length
        invariant forall q :: 0 <= q < i ==> flash[q] == BLANK
      {
        flash[i] := BLANK;
        i := i + 1;
      }
    }

    /** ee_erase: afterwards the log is empty, whatever the flash held. */
    method Erase() returns (status: nat)
      requires Geometry()
      modifies this, flash
      ensures Valid() && log == [] && status == 0
    {
      hide Stores;
      EraseCells();
      GeometryLength();
      BlankStores(flash[..], RecSize(), slots);
      log := [];
      status := 0;
    }

    /** The masked parts of an aligned address. */
    lemma MaskedAddress(location: nat)
      requires Geometry() && location % RecSize() == 0 && location < 0x8000_0000
      ensures Pow2(32) >= PageSize() >= RecSize()
      ensures And(location, PageSize() - RecSize()) == location % PageSize()
      ensures And(location, Pow2(32) - PageSize()) == location - location % PageSize()
    {
      hide Pow2, And, Geometry;
      assert recLog <= pageLog <= 32 by { GeometryLogs(); }
      MasksMatchHeader();
      MaskedParts(location, recLog, pageLog, 32);
    }

    lemma GeometryLogs()
      requires Geometry()
      ensures recLog <= pageLog <= 32
    {}

    /** Where in its page a slot lies, as computed with the masks, and that it fits there. */
    lemma PageOfSlot(k: nat)
      requires Geometry() && k < slots
      ensures var location := SlotAddr(k); var page := PageSize(); var rec := RecSize();
        && Pow2(32) >= page >= rec
        && location >= addrL
        && And(location, page - rec) + rec <= page
        && And(location, Pow2(32) - page) >= addrL
        && And(location, Pow2(32) - page) + And(location, page - rec) == location
        && And(location, Pow2(32) - page) + page <= AddrEnd()
    {
      hide Pow2, And;
      var rec := RecSize();
      AddressAligned();
      SlotInside(rec, slots, k, 0);
      Aligned(addrL / rec, k, rec);
      MaskedAddress(SlotAddr(k));
      PageRoom(addrL, k * rec, rec, PageSize(), slots * rec);
    }

    /** The record-sized piece of flash at an address. */
    function RecordAtAddress(address: int): Record
      requires addrL <= address && address + RecSize() <= AddrEnd()
      reads flash
    {
      flash[address - addrL..address - addrL + RecSize()]
    }

    lemma SlotHoldsRecord(k: nat)
      requires Valid() && k < |log|
      ensures addrL <= SlotAddr(k) && SlotAddr(k) + RecSize() <= AddrEnd()
      ensures RecordAtAddress(SlotAddr(k)) == log[k]
    {
      hide Geometry, Pow2;
      var rec := RecSize();
      assert flash.Length == slots * rec by { GeometryLength(); }
      SlotInside(rec, slots, k, 0);
      assert k * rec + rec <= slots * rec;
      forall i | 0 <= i < rec
        ensures flash[k * rec + i] == log[k][i]
      {
        assert At(flash[..], rec, slots, k, i) == log[k][i];
      }
    }

    lemma GeometryLength()
      requires Geometry()
      ensures flash.Length == slots * RecSize()
    {}

    /** ee_write: appends the record, or reports 501 and changes nothing. Bytes outside the
        new slot survive because the rest of the page is programmed with 0xFF. */
    method Write(record: Record) returns (status: nat)
      requires Valid() && |record| == RecSize() && record[0] == EE_REC_ID
      modifies this, flash
      ensures Valid()
      ensures old(|log|) == slots ==> status == NO_SPACE_IN_EEPROM && log == old(log) && flash[..] == old(flash[..])
      ensures old(|log|) < slots ==> status == 0 && log == old(log) + [record]
      ensures old(|log|) < slots ==> Filled(old(flash[..]), flash[..], old(|log|) * RecSize(), record)
    {
      hide Geometry, Pow2, And, Stores, Filled;
      var location, _ := Locate();
      if location == -1 {
        return NO_SPACE_IN_EEPROM;
      }
      ghost var k := |log|;
      assert k < slots by { SlotNonNegative(k); }
      AppendRecord(location, record);
      status := Compare(record, location - addrL);
    }

    /** The first free slot is programmed, and the log grows by the record. */
    method AppendRecord(location: int, record: Record)
      requires Valid() && |log| < slots && location == SlotAddr(|log|)
      requires |record| == RecSize() && record[0] == EE_REC_ID
      modifies this`log, flash
      ensures Valid() && log == old(log) + [record]
      ensures Filled(old(flash[..]), flash[..], old(|log|) * RecSize(), record)
      ensures 0 <= location - addrL && location - addrL + |record| <= flash.Length
      ensures flash[location - addrL..location - addrL + |record|] == record
    {
      hide Geometry, Pow2, And, Stores, Filled, BlankFrom;
      ghost var k := |log|;
      ghost var before := flash[..];
      SlotBlank(before, k);
      GeometryLength();
      ProgramSlot(location, record, k);
      FillAppends(before, flash[..], RecSize(), slots, log, record);
      log := log + [record];
      SlotReads(before, k * RecSize(), record);
    }

    /** The record goes into a page buffer of 0xFF, at its place in the page, and the page is
        programmed. */
    method ProgramSlot(location: int, record: Record, ghost k: nat)
      requires Geometry() && k < slots && location == SlotAddr(k) && |record| == RecSize()
      requires flash.Length == slots * RecSize() && k * RecSize() + RecSize() <= flash.Length
      requires BlankFrom(flash[..], k * RecSize(), RecSize())
      modifies flash
      ensures Filled(old(flash[..]), flash[..], k * RecSize(), record)
    {
      hide Geometry, Pow2, And, Program;
      PageOfSlot(k);
      ghost var before := flash[..];
      var page, rec := PageSize(), RecSize();
      var offset := And(location, page - rec);
      var start := And(location, Pow2(32) - page);
      var buffer := BlankPage(page);
      FillBuffer(buffer, offset, record);
      ProgramPage(start - addrL, buffer);
      SlotProgrammed(before, flash[..], buffer[..], start - addrL, offset, k * rec, record);
    }

    lemma SlotReads(before: seq<bv8>, at: nat, record: Record)
      requires at + |record| <= flash.Length && Filled(before, flash[..], at, record)
      ensures flash[at..at + |record|] == record
    {}

    lemma SlotNonNegative(k: nat)
      ensures SlotAddr(k) >= 0
    {
      assert k * RecSize() >= 0;
    }

    lemma SlotBlank(bytes: seq<bv8>, k: nat)
      requires Stores(bytes, RecSize(), slots, log) && |log| <= k < slots
      ensures k * RecSize() + RecSize() <= |bytes|
      ensures BlankFrom(bytes, k * RecSize(), RecSize())
    {
      var rec := RecSize();
      SlotInside(rec, slots, k, 0);
      assert (k + 1) * rec == k * rec + rec;
      forall q | 0 <= q < |bytes| && k * rec <= q < k * rec + rec
        ensures bytes[q] == BLANK
      {
        assert At(bytes, rec, slots, k, q - k * rec) == BLANK;
      }
    }

    method BlankPage(page: nat) returns (buffer: array<bv8>)
      ensures fresh(buffer) && buffer.Length == page
      ensures forall q :: 0 <= q < page ==> buffer[q] == BLANK
    {
      buffer := new bv8[page];
      var i := 0;
      while i < page
        invariant 0 <= i <= page
        invariant forall q :: 0 <= q < i ==> buffer[q] == BLANK
      {
        buffer[i] := BLANK;
        i := i + 1;
      }
    }

    method FillBuffer(buffer: array<bv8>, offset: nat, record: Record)
      requires offset + |record| <= buffer.Length
      modifies buffer
      ensures forall q :: 0 <= q < buffer.Length ==>
        buffer[q] == if offset <= q < offset + |record| then record[q - offset] else old(buffer[q])
    {
      var i := 0;
      while i != |record|
        invariant 0 <= i <= |record|
        invariant forall q :: 0 <= q < buffer.Length ==>
          buffer[q] == if offset <= q < offset + i then record[q - offset] else old(buffer[q])
      {
        buffer[offset + i] := record[i];
        i := i + 1;
      }
    }

    /** ee_read: the address of the newest record. */
    method Read() returns (code: nat, address: Option<int>)
      requires Valid()
      ensures log == [] <==> code == NO_RECORDS_AVAILABLE
      ensures log == [] ==> address == None
      ensures log != [] ==> code == 0 && address == Some(SlotAddr(|log| - 1))
      ensures log != [] ==> addrL <= address.value && address.value + RecSize() <= AddrEnd()
      ensures log != [] ==> RecordAtAddress(address.value) == log[|log| - 1]
    {
      hide Geometry, Pow2, Stores;
      var location, _ := Locate();
      SlotAddrStep(|log|);
      SlotAddrStep(slots);
      if |log| > 0 {
        SlotHoldsRecord(|log| - 1);
        SlotAddrGap(0, |log|);
      }
      SlotNonNegative(|log|);
      if location == addrL {
        return NO_RECORDS_AVAILABLE, None;
      }
      if location == -1 {
        return 0, Some(AddrEnd() - RecSize());
      }
      return 0, Some(location - RecSize());
    }

    /** ee_readn. The guard admits index == slots and then answers with the address just past
        the region; every other answer of code 0 is a slot. */
    method ReadN(index: nat) returns (code: nat, address: Option<int>)
      requires Valid()
      ensures if index <= slots then code == 0 && address == Some(SlotAddr(index))
              else code == INDEX_OUT_OF_RANGE && address == None
      ensures code == 0 && address.value + RecSize() <= AddrEnd() <==> index < slots
      ensures index < |log| ==> addrL <= address.value && address.value + RecSize() <= AddrEnd()
      ensures index < |log| ==> RecordAtAddress(address.value) == log[index]
    {
      hide Pow2, Stores;
      var rec := RecSize();
      DivUnique(AddrEnd() - addrL, slots, 0, rec);
      if index < |log| {
        SlotHoldsRecord(index);
      }
      if index < slots {
        SlotInside(rec, slots, index, 0);
        assert (index + 1) * rec == index * rec + rec;
      }
      if index > (AddrEnd() - addrL) / rec {
        return INDEX_OUT_OF_RANGE, None;
      }
      return 0, Some(addrL + rec * index);
    }

    /** ee_count. */
    method Count() returns (code: nat, count: nat)
      requires Valid()
      ensures code == 0 && count == |log|
    {
      hide Pow2, Stores;
      var location, _ := Locate();
      SlotNonNegative(|log|);
      SlotAddrStep(slots);
      if location == -1 {
        location := AddrEnd();
      }
      DivUnique(location - addrL, |log|, 0, RecSize());
      return 0, (location - addrL) / RecSize();
    }
  }

  lemma Aligned(b: nat, k: nat, d: nat)
    requires d > 0
    ensures (b * d + k * d) % d == 0
    ensures (k * d) % d == 0
  {
    Distribute(b, k, d);
    DivUnique(b * d + k * d, b + k, 0, d);
    DivUnique(k * d, k, 0, d);
  }

  /** An aligned piece at offset p lies inside one page, and that page inside the region. */
  lemma PageRoom(base: nat, p: nat, rec: nat, page: nat, n: nat)
    requires rec > 0 && page > 0 && page % rec == 0 && base % page == 0 && n % page == 0
    requires p < n && p % rec == 0
    ensures (base + p) % page + rec <= page
    ensures base <= base + p - (base + p) % page
    ensures base + p - (base + p) % page + page <= base + n
  {
    var t := p % page;
    assert (base + p) % page == t by {
      AddMultiple(p, base, page);
    }
    assert t <= p;
    assert p - t + page <= n by {
      RoomForOne(p, page, n);
    }
    assert t + rec <= page by {
      PieceInPage(p, rec, page);
    }
  }

  lemma PieceInPage(p: nat, rec: nat, page: nat)
    requires rec > 0 && page > 0 && page % rec == 0 && p % rec == 0
    ensures p % page + rec <= page
  {
    ResidueAligned(p, rec, page);
    RoomForOne(p % page, rec, page);
  }

  /** The residue of a multiple of d modulo a multiple of d is a multiple of d. */
  lemma ResidueAligned(x: nat, d: nat, n: nat)
    requires d > 0 && n > 0 && n % d == 0 && x % d == 0
    ensures (x % n) % d == 0
  {
    var q := x / n;
    ModOfMultiple(n, q, d);
    assert x == x % n + q * n;
    AddMultiple(x % n, q * n, d);
  }

  // ------------------------------------------------------------ whole runs

  datatype Op = EraseAll | Append(record: Record)

  /** The sequence that a run should leave: erase empties it, a write extends it while there
      is room. */
  function After(log: seq<Record>, ops: seq<Op>, slots: nat): seq<Record>
    decreases ops
  {
    if ops == [] then log
    else match ops[0]
      case EraseAll => After([], ops[1..], slots)
      case Append(r) => After(if |log| < slots then log + [r] else log, ops[1..], slots)
  }

  function Appends(records: seq<Record>): seq<Op> {
    seq(|records|, i requires 0 <= i < |records| => Append(records[i]))
  }

  lemma {:induction false} AfterConcat(log: seq<Record>, first: seq<Op>, second: seq<Op>, slots: nat)
    ensures After(log, first + second, slots) == After(After(log, first, slots), second, slots)
    decreases first
  {
    if first == [] {
      assert first + second == second;
    } else {
      assert (first + second)[1..] == first[1..] + second;
      match first[0]
      case EraseAll => AfterConcat([], first[1..], second, slots);
      case Append(r) => AfterConcat(if |log| < slots then log + [r] else log, first[1..], second, slots);
    }
  }

  lemma {:induction false} AppendsFill(log: seq<Record>, records: seq<Record>, slots: nat)
    requires |log| <= slots
    ensures After(log, Appends(records), slots)
      == log + records[..if |records| <= slots - |log| then |records| else slots - |log|]
    decreases records
  {
    if records != [] {
      assert Appends(records)[1..] == Appends(records[1..]);
      AppendsFill(if |log| < slots then log + [records[0]] else log, records[1..], slots);
    }
  }

  /** After any history, an erase and then any number of writes leave exactly the first
      `slots` of the records written. */
  lemma {:induction false} SinceLastErase(log: seq<Record>, history: seq<Op>, records: seq<Record>, slots: nat)
    ensures After(log, history + [EraseAll] + Appends(records), slots)
      == records[..if |records| <= slots then |records| else slots]
  {
    AfterConcat(log, history + [EraseAll], Appends(records), slots);
    AfterConcat(log, history, [EraseAll], slots);
    AppendsFill([], records, slots);
  }

  /** Every run of the real operations on the flash follows the sequence. */
  method Replay(e: Eeprom, ops: seq<Op>)
    requires e.Valid()
    requires forall i :: 0 <= i < |ops| && ops[i].Append? ==>
      |ops[i].record| == e.RecSize() && ops[i].record[0] == EE_REC_ID
    modifies e, e.flash
    ensures e.Valid() && e.log == After(old(e.log), ops, e.slots)
  {
    hide Stores;
    var i := 0;
    while i < |ops|
      invariant 0 <= i <= |ops|
      invariant e.Valid() && After(e.log, ops[i..], e.slots) == After(old(e.log), ops, e.slots)
    {
      assert ops[i..][1..] == ops[i + 1..];
      match ops[i] {
        case EraseAll =>
          var _ := e.Erase();
        case Append(r) =>
          var _ := e.Write(r);
      }
      i := i + 1;
    }
  }
}
