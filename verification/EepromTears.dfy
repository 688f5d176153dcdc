/** What power loss in the middle of a save can do: the exact condition under which only the
    old or the new counter can load, the two families of cells it covers, and what happens
    outside it. */
module EepromTears {
  import opened Bytes
  import opened Registers
  import opened Crc16
  import opened Eeprom
  import opened EepromRing
  import RingRuns

  // ----- the exact condition -----

  /** No mixture of a new cell with the old one reads as a third counter above `load`. The
      writer could decide it from the target cell before it starts. */
  predicate TearSafe(cell: bytes, n: u64, load: u64)
    requires |cell| == CELL_SIZE
  {
    forall k {:trigger Torn(cell, n, k)} :: 0 < k < CELL_SIZE && CellValid(Torn(cell, n, k)) ==>
      CellCounter(Torn(cell, n, k)) <= load || CellCounter(Torn(cell, n, k)) == n
  }

  /** The cell after the first `k` bytes of a save of `n`. */
  function Torn(cell: bytes, n: u64, k: nat): (m: bytes)
    requires |cell| == CELL_SIZE && k <= CELL_SIZE
    ensures |m| == CELL_SIZE
  {
    EncodeCell(n)[..k] + cell[k..]
  }

  /** After every cut the old maximum or the new counter loads, exactly when the target cell
      is tear-safe. */
  lemma TearSafeExact(img: Image, n: u64)
    requires n > Load(img)
    ensures (forall k: nat :: k <= CELL_SIZE ==>
               Load(SavedPrefix(img, n, k)) == Load(img) || Load(SavedPrefix(img, n, k)) == n)
       <==> TearSafe(Cell(img, NextCell(img)), n, Load(img))
  {
    hide CellValid, CellCounter, EncodeCell, Cell, NextCell, Load, SavedPrefix;
    var cell := Cell(img, NextCell(img));
    forall k: nat | k <= CELL_SIZE
      ensures Load(SavedPrefix(img, n, k))
           == if CellValid(Torn(cell, n, k)) && CellCounter(Torn(cell, n, k)) > Load(img) then CellCounter(Torn(cell, n, k))
              else Load(img)
    {
      LoadAfterPrefix(img, n, k);
    }
    hide Torn;
    UntornLoads(img, n);
  }

  lemma UntornLoads(img: Image, n: u64)
    requires n > Load(img)
    ensures Load(SavedPrefix(img, n, 0)) == Load(img) && Load(SavedPrefix(img, n, CELL_SIZE)) == n
  {
    CompletedSaveLoads(img, n);
    hide NextCell, EncodeCell, Load;
    assert EncodeCell(n)[..0] == [];
    OverwriteNothing(img, CellAddr(NextCell(img)));
  }

  /** Over a valid cell: counters equal above their low 24 bits are enough. */
  lemma HighBitsAreSafe(img: Image, n: u64)
    requires n > Load(img) && CellValid(Cell(img, NextCell(img)))
    requires CellCounter(Cell(img, NextCell(img))) / 0x100_0000 == n / 0x100_0000
    ensures TearSafe(Cell(img, NextCell(img)), n, Load(img))
  {
    hide CellValid, CellCounter, Cell, NextCell, Load, SavedPrefix, TearSafe;
    forall k: nat | k <= CELL_SIZE
      ensures Load(SavedPrefix(img, n, k)) == Load(img) || Load(SavedPrefix(img, n, k)) == n
    {
      TornSaveExact(img, n, k);
    }
    TearSafeExact(img, n);
  }

  // ----- over an erased cell -----

  /** The payload of a cell never written, cut after `k` bytes, whose CRC is 0xFFFF. */
  function TornPayload(k: nat): (p: bytes)
    requires 2 <= k < 8
    ensures |p| == 8
  {
    if k == 2 then [0x46, 0xAD, 0xFF, 0xFF, 0xFF, 0xFF, 0xFF, 0xFF]
    else if k == 3 then [0x58, 0x5E, 0x00, 0xFF, 0xFF, 0xFF, 0xFF, 0xFF]
    else if k == 4 then [0xC2, 0x62, 0x00, 0x00, 0xFF, 0xFF, 0xFF, 0xFF]
    else if k == 5 then [0x75, 0x2F, 0x00, 0x00, 0x00, 0xFF, 0xFF, 0xFF]
    else if k == 6 then [0x96, 0x55, 0x00, 0x00, 0x00, 0x00, 0xFF, 0xFF]
    else [0xAF, 0x11, 0x00, 0x00, 0x00, 0x00, 0x00, 0xFF]
  }

  /** The counter below 2^16 whose save leaves that payload. */
  function TornValue(k: nat): u64
    requires 2 <= k < 8
  {
    if k == 2 then 0xAD46
    else if k == 3 then 0x5E58
    else if k == 4 then 0x62C2
    else if k == 5 then 0x2F75
    else if k == 6 then 0x5596
    else 0x11AF
  }

  /** The six counters below 2^16 that tear over an erased cell. */
  predicate TearsOverErased(n: u64) {
    exists k :: 2 <= k < 8 && n == TornValue(k)
  }

  lemma CrcOfTorn2(s: bytes)
    requires s == [0x46, 0xAD, 0xFF, 0xFF, 0xFF, 0xFF, 0xFF, 0xFF]
    ensures Crc(s) == 0xFFFF
  {
    hide Fold, Feed;
    FoldStep(s, 0, 0xFFFF, 0x46, 0xC9F2);
    FoldStep(s, 1, 0xC9F2, 0xAD, 0xDE22);
    FoldStep(s, 2, 0xDE22, 0xFF, 0x1643);
    FoldStep(s, 3, 0x1643, 0xFF, 0x2F07);
    FoldStep(s, 4, 0x2F07, 0xFF, 0xCC7D);
    FoldStep(s, 5, 0xCC7D, 0xFF, 0x7B30);
    FoldStep(s, 6, 0x7B30, 0xFF, 0xE10C);
    FoldStep(s, 7, 0xE10C, 0xFF, 0xFFFF);
    FoldEnds(s, 0xFFFF);
  }

  lemma CrcOfTorn3(s: bytes)
    requires s == [0x58, 0x5E, 0x00, 0xFF, 0xFF, 0xFF, 0xFF, 0xFF]
    ensures Crc(s) == 0xFFFF
  {
    hide Fold, Feed;
    FoldStep(s, 0, 0xFFFF, 0x58, 0x3A0D);
    FoldStep(s, 1, 0x3A0D, 0x5E, 0x2122);
    FoldStep(s, 2, 0x2122, 0x00, 0x1643);
    FoldStep(s, 3, 0x1643, 0xFF, 0x2F07);
    FoldStep(s, 4, 0x2F07, 0xFF, 0xCC7D);
    FoldStep(s, 5, 0xCC7D, 0xFF, 0x7B30);
    FoldStep(s, 6, 0x7B30, 0xFF, 0xE10C);
    FoldStep(s, 7, 0xE10C, 0xFF, 0xFFFF);
    FoldEnds(s, 0xFFFF);
  }

  lemma CrcOfTorn4(s: bytes)
    requires s == [0xC2, 0x62, 0x00, 0x00, 0xFF, 0xFF, 0xFF, 0xFF]
    ensures Crc(s) == 0xFFFF
  {
    hide Fold, Feed;
    FoldStep(s, 0, 0xFFFF, 0xC2, 0x18FE);
    FoldStep(s, 1, 0x18FE, 0x62, 0x21DD);
    FoldStep(s, 2, 0x21DD, 0x00, 0xE943);
    FoldStep(s, 3, 0xE943, 0x00, 0x2F07);
    FoldStep(s, 4, 0x2F07, 0xFF, 0xCC7D);
    FoldStep(s, 5, 0xCC7D, 0xFF, 0x7B30);
    FoldStep(s, 6, 0x7B30, 0xFF, 0xE10C);
    FoldStep(s, 7, 0xE10C, 0xFF, 0xFFFF);
    FoldEnds(s, 0xFFFF);
  }

  lemma CrcOfTorn5(s: bytes)
    requires s == [0x75, 0x2F, 0x00, 0x00, 0x00, 0xFF, 0xFF, 0xFF]
    ensures Crc(s) == 0xFFFF
  {
    hide Fold, Feed;
    FoldStep(s, 0, 0xFFFF, 0x75, 0xCFC2);
    FoldStep(s, 1, 0xCFC2, 0x2F, 0x3F2E);
    FoldStep(s, 2, 0x3F2E, 0x00, 0xE9BC);
    FoldStep(s, 3, 0xE9BC, 0x00, 0xD007);
    FoldStep(s, 4, 0xD007, 0x00, 0xCC7D);
    FoldStep(s, 5, 0xCC7D, 0xFF, 0x7B30);
    FoldStep(s, 6, 0x7B30, 0xFF, 0xE10C);
    FoldStep(s, 7, 0xE10C, 0xFF, 0xFFFF);
    FoldEnds(s, 0xFFFF);
  }

  lemma CrcOfTorn6(s: bytes)
    requires s == [0x96, 0x55, 0x00, 0x00, 0x00, 0x00, 0xFF, 0xFF]
    ensures Crc(s) == 0xFFFF
  {
    hide Fold, Feed;
    FoldStep(s, 0, 0xFFFF, 0x96, 0x028F);
    FoldStep(s, 1, 0x028F, 0x55, 0xA512);
    FoldStep(s, 2, 0xA512, 0x00, 0xF74F);
    FoldStep(s, 3, 0xF74F, 0x00, 0xD0F8);
    FoldStep(s, 4, 0xD0F8, 0x00, 0x337D);
    FoldStep(s, 5, 0x337D, 0x00, 0x7B30);
    FoldStep(s, 6, 0x7B30, 0xFF, 0xE10C);
    FoldStep(s, 7, 0xE10C, 0xFF, 0xFFFF);
    FoldEnds(s, 0xFFFF);
  }

  lemma CrcOfTorn7(s: bytes)
    requires s == [0xAF, 0x11, 0x00, 0x00, 0x00, 0x00, 0x00, 0xFF]
    ensures Crc(s) == 0xFFFF
  {
    hide Fold, Feed;
    FoldStep(s, 0, 0xFFFF, 0xAF, 0xA5F5);
    FoldStep(s, 1, 0xA5F5, 0x11, 0x125F);
    FoldStep(s, 2, 0x125F, 0x00, 0x6D73);
    FoldStep(s, 3, 0x6D73, 0x00, 0xCE0B);
    FoldStep(s, 4, 0xCE0B, 0x00, 0x3382);
    FoldStep(s, 5, 0x3382, 0x00, 0x8430);
    FoldStep(s, 6, 0x8430, 0x00, 0xE10C);
    FoldStep(s, 7, 0xE10C, 0xFF, 0xFFFF);
    FoldEnds(s, 0xFFFF);
  }

  lemma CrcOfOne(s: bytes)
    requires s == [0x01, 0x00, 0x00, 0x00, 0x00, 0x00, 0x00, 0x00]
    ensures Crc(s) == 0x76ED
  {
    hide Fold, Feed;
    FoldStep(s, 0, 0xFFFF, 0x01, 0xF1D1);
    FoldStep(s, 1, 0xF1D1, 0x00, 0x2E3E);
    FoldStep(s, 2, 0x2E3E, 0x00, 0xFBAC);
    FoldStep(s, 3, 0xFBAC, 0x00, 0xF274);
    FoldStep(s, 4, 0xF274, 0x00, 0xBB5D);
    FoldStep(s, 5, 0xBB5D, 0x00, 0x4BB0);
    FoldStep(s, 6, 0x4BB0, 0x00, 0x49AF);
    FoldStep(s, 7, 0x49AF, 0x00, 0x76ED);
    FoldEnds(s, 0x76ED);
  }

  /** A ring cell of the EEPROM: ten bytes from 32 on. */
  lemma RingLayout(img: Image, i: nat)
    requires i < 16
    ensures Cell(img, i) == img[32 + 10 * i..42 + 10 * i]
  {
  }

  /** The counter lowest byte first and then its CRC lowest byte first: the cell of counter 1. */
  lemma KnownCell(cell: bytes)
    requires cell == [1, 0, 0, 0, 0, 0, 0, 0, 0xED, 0x76]
    ensures EncodeCell(1) == cell
  {
    hide Crc, LeBytes, CrcLow, CrcHigh;
    SmallBytes(1);
    CrcOfOne(LeBytes(1, 8));
    CrcBytes();
  }

  lemma {:induction false} CrcBytes()
    ensures CrcLow(0x76ED) == 0xED && CrcHigh(0x76ED) == 0x76
  {
  }

  lemma CrcOfOneTorn(s: bytes)
    requires s == [0x22, 0x14, 0x01, 0x00, 0x00, 0x00, 0x00, 0x00]
    ensures Crc(s) == 0x76ED
  {
    hide Fold, Feed;
    FoldStep(s, 0, 0xFFFF, 0x22, 0xE5D0);
    FoldStep(s, 1, 0xE5D0, 0x14, 0x2F3E);
    FoldStep(s, 2, 0x2F3E, 0x01, 0xFBAC);
    FoldStep(s, 3, 0xFBAC, 0x00, 0xF274);
    FoldStep(s, 4, 0xF274, 0x00, 0xBB5D);
    FoldStep(s, 5, 0xBB5D, 0x00, 0x4BB0);
    FoldStep(s, 6, 0x4BB0, 0x00, 0x49AF);
    FoldStep(s, 7, 0x49AF, 0x00, 0x76ED);
    FoldEnds(s, 0x76ED);
  }

  lemma TornPayloadCrc(k: nat)
    requires 2 <= k < 8
    ensures Crc(TornPayload(k)) == 0xFFFF
  {
    hide Crc;
    if k == 2 { CrcOfTorn2(TornPayload(k)); }
    else if k == 3 { CrcOfTorn3(TornPayload(k)); }
    else if k == 4 { CrcOfTorn4(TornPayload(k)); }
    else if k == 5 { CrcOfTorn5(TornPayload(k)); }
    else if k == 6 { CrcOfTorn6(TornPayload(k)); }
    else { CrcOfTorn7(TornPayload(k)); }
  }

  lemma SmallBytes(n: u64)
    requires n < 0x1_0000
    ensures LeBytes(n, 8) == [n % 256, n / 256, 0, 0, 0, 0, 0, 0]
  {
    var z: nat := 0;
    assert LeBytes(z, 3) == [0, 0, 0];
    assert LeBytes(z, 6) == [0, 0, 0] + LeBytes(z, 3);
    assert LeBytes(n / 256, 7) == [n / 256] + LeBytes(z, 6);
  }

  /** What a cut puts over an erased cell's first eight bytes, as far as it goes. */
  lemma TornBytes(n: u64, k: nat, c: bytes, m: bytes)
    requires n < 0x1_0000 && 0 < k < 8 && c == EncodeCell(n) && m == Torn(Filled(CELL_SIZE), n, k)
    ensures forall i :: 0 <= i < CELL_SIZE ==> m[i] == if i < k then c[i] else 0xFF
    ensures c[0] == n % 256 && c[1] == n / 256 && forall i :: 2 <= i < 8 ==> c[i] == 0
  {
    EncodedCell(n);
    SmallBytes(n);
    hide EncodeCell;
    assert forall i :: 0 <= i < 8 ==> c[i] == c[..8][i];
  }

  lemma TornPayloadAt(k: nat, i: nat)
    requires 2 <= k < 8 && 2 <= i < 8
    ensures TornPayload(k)[i] == if i < k then 0 else 0xFF
  {
  }

  /** The mixture's first eight bytes and its CRC bytes. */
  lemma TornOverErased(n: u64, k: nat)
    requires n < 0x1_0000 && 0 < k < 8
    ensures var m := Torn(Filled(CELL_SIZE), n, k);
            var w := if k < 2 then 2 else k;
            && m[..8] == [n % 256, if k < 2 then 0xFF else n / 256] + TornPayload(w)[2..]
            && m[8] == 0xFF && m[9] == 0xFF && m[7] == 0xFF
  {
    hide EncodeCell, Torn, TornPayload;
    var m, c := Torn(Filled(CELL_SIZE), n, k), EncodeCell(n);
    TornBytes(n, k, c, m);
    var w := if k < 2 then 2 else k;
    var rest := TornPayload(w)[2..];
    forall i | 0 <= i < 6 ensures m[i + 2] == rest[i] {
      TornPayloadAt(w, i + 2);
    }
    assert m[..8] == [m[0], m[1]] + m[2..8];
    assert m[2..8] == rest;
  }

  /** A payload alike a torn one beyond its first two bytes has its CRC only if it is it. */
  lemma OnlyThatPayload(p: bytes, k: nat)
    requires 2 <= k < 8 && |p| == 8 && p[2..] == TornPayload(k)[2..]
    ensures Crc(p) == 0xFFFF <==> p == TornPayload(k)
  {
    hide Crc, TornPayload;
    TornPayloadCrc(k);
    if Crc(p) == 0xFFFF {
      AdjacentChangeDetected(p, TornPayload(k), 0);
    }
  }

  lemma TornHead(n: u64, k: nat)
    requires n < 0x1_0000 && 2 <= k < 8
    ensures [n % 256, n / 256] + TornPayload(k)[2..] == TornPayload(k) <==> n == TornValue(k)
    ensures [n % 256, 0xFF] + TornPayload(2)[2..] != TornPayload(2)
  {
    var p := [n % 256, n / 256] + TornPayload(k)[2..];
    assert p == TornPayload(k) <==> p[0] == TornPayload(k)[0] && p[1] == TornPayload(k)[1];
    assert ([n % 256, 0xFF] + TornPayload(2)[2..])[1] != TornPayload(2)[1];
  }

  /** Exactly which cuts of a small counter over an erased cell make a valid cell. */
  lemma TornValidExactly(n: u64, k: nat)
    requires n < 0x1_0000 && 0 < k < 8
    ensures CellValid(Torn(Filled(CELL_SIZE), n, k)) <==> k >= 2 && n == TornValue(k)
    ensures CellCounter(Torn(Filled(CELL_SIZE), n, k)) >= 0xFF00_0000_0000_0000
  {
    var m := Torn(Filled(CELL_SIZE), n, k);
    TornOverErased(n, k);
    TopByteCounts(m);
    StoredCrcErased();
    hide Crc, StoredCrc, Torn, TornPayload, TornValue, CellCounter;
    OnlyThatPayload(m[..8], if k < 2 then 2 else k);
    TornHead(n, if k < 2 then 2 else k);
  }

  lemma TopByteCounts(c: bytes)
    requires |c| == CELL_SIZE && c[7] == 0xFF
    ensures CellCounter(c) >= 0xFF00_0000_0000_0000
  {
    var p := c[..8];
    LeValueFour(p);
    LeValueFour(p[4..]);
    assert p[4..][3] == c[7];
  }

  lemma WholePayload(cell: bytes, n: u64, k: nat)
    requires |cell| == CELL_SIZE && 8 <= k <= CELL_SIZE
    ensures CellCounter(Torn(cell, n, k)) == n
  {
    EncodedCell(n);
    hide EncodeCell;
    assert Torn(cell, n, k)[..8] == EncodeCell(n)[..8];
    SameCounter(Torn(cell, n, k), EncodeCell(n));
  }

  /** Over an erased cell: a counter below 2^16 is safe exactly unless it is one of six. */
  lemma ErasedSafeExactly(n: u64, load: u64)
    requires load < n < 0x1_0000
    ensures TearSafe(Filled(CELL_SIZE), n, load) <==> !TearsOverErased(n)
  {
    hide CellValid, CellCounter, Torn, TornValue;
    forall k | 0 < k < CELL_SIZE
      ensures if k < 8 then CellCounter(Torn(Filled(CELL_SIZE), n, k)) >= 0xFF00_0000_0000_0000
                            && (CellValid(Torn(Filled(CELL_SIZE), n, k)) <==> k >= 2 && n == TornValue(k))
              else CellCounter(Torn(Filled(CELL_SIZE), n, k)) == n
    {
      if k < 8 {
        TornValidExactly(n, k);
      } else {
        WholePayload(Filled(CELL_SIZE), n, k);
      }
    }
    if k :| 2 <= k < 8 && n == TornValue(k) {
      assert CellValid(Torn(Filled(CELL_SIZE), n, k));
    }
  }

  /** The six, spelled out. */
  lemma TheSix(n: u64)
    ensures TearsOverErased(n) <==>
              n == 0xAD46 || n == 0x5E58 || n == 0x62C2 || n == 0x2F75 || n == 0x5596 || n == 0x11AF
  {
    assert TornValue(2) == 0xAD46 && TornValue(3) == 0x5E58 && TornValue(4) == 0x62C2;
    assert TornValue(5) == 0x2F75 && TornValue(6) == 0x5596 && TornValue(7) == 0x11AF;
  }

  /** For one: right after pairing, a save of 0xAD46 cut after two bytes loads a counter in
      the reserved band. */
  lemma ErasedTearInvents(img: Image, key: bytes, n: u64)
    requires |key| == KEY_LEN && n == 0xAD46
    ensures Load(SavedPrefix(PairedImage(img, key), n, 2)) >= COUNTER_CEILING
  {
    var p := PairedImage(img, key);
    FreshRing(img, key);
    PairedCells(img, key, 0);
    LoadAfterPrefix(p, n, 2);
    ErasedCellTorn(n);
    hide CellValid, CellCounter, EncodeCell, Load, PairedImage, NextCell;
    assert MixedCell(p, n, 2) == Torn(Filled(CELL_SIZE), n, 2);
  }

  lemma ErasedCellTorn(n: u64)
    requires n == 0xAD46
    ensures var m := Torn(Filled(CELL_SIZE), n, 2);
            CellValid(m) && CellCounter(m) >= COUNTER_CEILING
  {
    hide CellValid, Torn, LeValue;
    var m := Torn(Filled(CELL_SIZE), n, 2);
    TornOverErased(n, 2);
    TornValidExactly(n, 2);
    assert TornPayload(2)[2..] == [0xFF, 0xFF, 0xFF, 0xFF, 0xFF, 0xFF];
    assert n % 256 == 0x46 && n / 256 == 0xAD;
    ReservedValue(m[..8]);
  }

  lemma ReservedValue(p: bytes)
    requires p == [0x46, 0xAD] + [0xFF, 0xFF, 0xFF, 0xFF, 0xFF, 0xFF]
    ensures LeValue(p) >= COUNTER_CEILING
  {
    LeValueFour(p);
    LeValueFour(p[4..]);
  }

  // ----- over a valid cell whose high bytes differ -----

  /** The counters 1 to 16. */
  function FirstSixteen(): (cs: seq<u64>)
    ensures |cs| == 16 && RingRuns.Increasing(cs)
  {
    [1, 2, 3, 4, 5, 6, 7, 8, 9, 10, 11, 12, 13, 14, 15, 16]
  }

  /** A cell is valid, with the counter its payload spells, if its last two bytes are
      the payload's CRC. */
  lemma CellFromPayload(c: bytes, p: bytes)
    requires |c| == CELL_SIZE && |p| == 8 && c[..8] == p
    requires StoredCrc(c[8], c[9]) == Crc(p)
    ensures CellValid(c) && CellCounter(c) == LeValue(p)
  {
  }

  lemma ValidCellCrc(c: bytes)
    requires |c| == CELL_SIZE && CellValid(c)
    ensures StoredCrc(c[8], c[9]) == Crc(c[..8])
  {
  }

  lemma BytesOf0x1011422(n: u64)
    requires n == 0x101_1422
    ensures LeBytes(n, 8) == [0x22, 0x14, 0x01, 0x01, 0, 0, 0, 0]
  {
    var z: nat := 0;
    assert LeBytes(z, 4) == [0, 0, 0, 0];
    var a, b, c := n / 256, n / 256 / 256, n / 256 / 256 / 256;
    assert a == 0x1_0114 && b == 0x101 && c == 1;
    assert LeBytes(c, 5) == [1] + LeBytes(z, 4);
    assert LeBytes(b, 6) == [1] + LeBytes(c, 5);
    assert LeBytes(a, 7) == [0x14] + LeBytes(b, 6);
  }

  lemma ValueOf0x11422(p: bytes)
    requires p == [0x22, 0x14, 0x01, 0, 0, 0, 0, 0]
    ensures LeValue(p) == 0x1_1422
  {
    LeValueFour(p);
    LeValueFour(p[4..]);
  }

  /** The payload of that mixture. */
  lemma OneCellPayload(one: bytes, big: bytes, m: bytes)
    requires |one| == |big| == CELL_SIZE && m == big[..3] + one[3..]
    requires one[..8] == [1, 0, 0, 0, 0, 0, 0, 0] && big[..8] == [0x22, 0x14, 0x01, 0x01, 0, 0, 0, 0]
    ensures m[..8] == [0x22, 0x14, 0x01, 0, 0, 0, 0, 0] && m[8] == one[8] && m[9] == one[9]
  {
    assert forall i :: 0 <= i < 8 ==> one[i] == one[..8][i] && big[i] == big[..8][i];
    assert forall i :: 0 <= i < 8 ==> m[i] == if i < 3 then big[i] else one[i];
  }

  /** Three bytes of 0x1011422 over a cell holding 1 make a valid cell. */
  lemma OneCellTorn(m: bytes)
    requires m == Torn(EncodeCell(1), 0x101_1422, 3)
    ensures CellValid(m) && CellCounter(m) == 0x1_1422
  {
    hide Crc, StoredCrc, EncodeCell, CellValid, CellCounter, LeValue, LeBytes;
    EncodedCell(0x101_1422);
    EncodedCell(1);
    SmallBytes(1);
    BytesOf0x1011422(0x101_1422);
    var p, one := [0x22, 0x14, 0x01, 0, 0, 0, 0, 0], EncodeCell(1);
    OneCellPayload(one, EncodeCell(0x101_1422), m);
    hide Torn;
    CrcOfOne(one[..8]);
    CrcOfOneTorn(p);
    ValidCellCrc(one);
    CellFromPayload(m, p);
    ValueOf0x11422(p);
  }

  /** A ring the firmware does write: after saving 1 to 16, a save of 0x1011422 cut after
      three bytes loads 0x11422, which nobody ever sent. */
  lemma WiderTearInvents(img: Image, key: bytes)
    requires |key| == KEY_LEN
    ensures var ring := RingRuns.Run(img, key, FirstSixteen()).img;
            && Load(ring) == 16 && CellValid(Cell(ring, NextCell(ring)))
            && Load(SavedPrefix(ring, 0x101_1422, 3)) == 0x1_1422
  {
    var cs := FirstSixteen();
    hide RingRuns.Run, CellValid, CellCounter, EncodeCell, Load, NextCell, Cell, FirstSixteen;
    var ring := RingRuns.Run(img, key, cs).img;
    RingRuns.RunHolds(img, key, cs);
    RingRuns.HoldsLoads(ring, cs);
    FirstOfSixteen();
    assert RingRuns.CellHolds(ring, cs, 0);
    assert Cell(ring, 0) == EncodeCell(1);
    EncodedCell(1);
    LoadAfterPrefix(ring, 0x101_1422, 3);
    assert MixedCell(ring, 0x101_1422, 3) == Torn(EncodeCell(1), 0x101_1422, 3);
    OneCellTorn(MixedCell(ring, 0x101_1422, 3));
  }

  lemma FirstOfSixteen()
    ensures FirstSixteen()[0] == 1 && FirstSixteen()[15] == 16 && RingRuns.LastSave(16, 0) == 0
  {
  }

  // ----- pairing is not atomic -----

  /** Power lost during pairing: the record counts as paired as soon as magic and format
      stand, that is from byte 9 on, with a key that is part new and part whatever was there. */
  lemma PairingTorn(img: Image, key: bytes, k: nat)
    requires |key| == KEY_LEN && k <= RECORD_LEN
    ensures k <= KEY_ADDR ==>
              (IsPaired(PairingPrefix(img, key, k)) <==> img[k..KEY_ADDR] == (MAGIC + [FORMAT_VERSION])[k..])
    ensures k >= KEY_ADDR ==>
              && IsPaired(PairingPrefix(img, key, k))
              && KeyOf(PairingPrefix(img, key, k)) == key[..k - KEY_ADDR] + KeyOf(img)[k - KEY_ADDR..]
  {
    var head, p := MAGIC + [FORMAT_VERSION], PairingPrefix(img, key, k);
    PairedByHead(p);
    if k <= KEY_ADDR {
      assert (head + key)[..k] == head[..k];
      assert p[..KEY_ADDR] == head[..k] + img[k..KEY_ADDR];
      assert head == head[..k] + head[k..];
      assert p[..KEY_ADDR][k..] == img[k..KEY_ADDR];
    }
    if k >= KEY_ADDR {
      assert (head + key)[..k] == head + key[..k - KEY_ADDR];
      assert p[..KEY_ADDR] == head;
      assert p[KEY_ADDR..KEY_ADDR + KEY_LEN] == key[..k - KEY_ADDR] + img[k..KEY_ADDR + KEY_LEN];
    }
  }

  lemma PairedByHead(img: Image)
    ensures IsPaired(img) <==> img[..KEY_ADDR] == MAGIC + [FORMAT_VERSION]
  {
    assert img[..KEY_ADDR] == img[..MAGIC_LEN] + [img[FMT_ADDR]];
    assert (MAGIC + [FORMAT_VERSION])[..MAGIC_LEN] == MAGIC;
  }

  /** Cell `i` once `r` ring bytes are erased. */
  function ResetCell(img: Image, r: nat, i: nat): (c: bytes)
    requires r <= END_ADDR - RING_ADDR && i < RING_CELLS
    ensures |c| == CELL_SIZE
  {
    var done := if r <= CELL_SIZE * i then 0 else if r >= CELL_SIZE * (i + 1) then CELL_SIZE else r - CELL_SIZE * i;
    Filled(done) + Cell(img, i)[done..]
  }

  /** The image once the record and `r` ring bytes are down. */
  lemma PairingBytes(img: Image, key: bytes, r: nat)
    requires |key| == KEY_LEN && r <= END_ADDR - RING_ADDR
    ensures var p := PairingPrefix(img, key, RECORD_LEN + r);
            forall j :: RING_ADDR <= j < END_ADDR ==> p[j] == if j < RING_ADDR + r then 0xFF else img[j]
  {
    hide Record, Overwrite;
    assert Record(key)[..RECORD_LEN] == Record(key);
    if r == 0 {
      assert PairingPrefix(img, key, RECORD_LEN) == Overwrite(img, 0, Record(key));
    }
  }

  lemma ResetCellAt(img: Image, r: nat, i: nat, j: nat)
    requires r <= END_ADDR - RING_ADDR && i < RING_CELLS && j < CELL_SIZE
    ensures ResetCell(img, r, i)[j] == if CellAddr(i) + j < RING_ADDR + r then 0xFF else img[CellAddr(i) + j]
  {
  }

  lemma ResetCells(img: Image, key: bytes, r: nat, i: nat)
    requires |key| == KEY_LEN && r <= END_ADDR - RING_ADDR && i < RING_CELLS
    ensures Cell(PairingPrefix(img, key, RECORD_LEN + r), i) == ResetCell(img, r, i)
  {
    hide PairingPrefix, ResetCell;
    PairingBytes(img, key, r);
    var p := PairingPrefix(img, key, RECORD_LEN + r);
    forall j | 0 <= j < CELL_SIZE ensures Cell(p, i)[j] == ResetCell(img, r, i)[j] {
      ResetCellAt(img, r, i, j);
      assert Cell(p, i)[j] == p[CellAddr(i) + j];
    }
  }

  lemma ResetKeepsRecord(img: Image, key: bytes, r: nat)
    requires |key| == KEY_LEN && r <= END_ADDR - RING_ADDR
    ensures IsPaired(PairingPrefix(img, key, RECORD_LEN + r)) && KeyOf(PairingPrefix(img, key, RECORD_LEN + r)) == key
  {
    var p := PairingPrefix(img, key, RECORD_LEN + r);
    assert Record(key)[..RECORD_LEN] == Record(key);
    assert p[..MAGIC_LEN] == MAGIC;
    assert p[KEY_ADDR..KEY_ADDR + KEY_LEN] == key;
  }

  /** Power lost while pairing erases the ring: the new key stands, and the old pairing's
      counters still load from every cell not fully erased, so the new pairing starts above
      counter `c` exactly when one of them does. */
  lemma RingResetTorn(img: Image, key: bytes, r: nat, c: u64)
    requires |key| == KEY_LEN && r <= END_ADDR - RING_ADDR && c > 0
    ensures var p := PairingPrefix(img, key, RECORD_LEN + r);
            && IsPaired(p) && KeyOf(p) == key
            && (Load(p) >= c <==>
                  exists i: nat :: i < RING_CELLS && r < CELL_SIZE * (i + 1)
                    && CellValid(ResetCell(img, r, i)) && CellCounter(ResetCell(img, r, i)) >= c)
  {
    hide CellValid, CellCounter, Cell, ResetCell, IsPaired, KeyOf, PairingPrefix;
    var p := PairingPrefix(img, key, RECORD_LEN + r);
    ResetKeepsRecord(img, key, r);
    forall i: nat | i < RING_CELLS
      ensures Cell(p, i) == ResetCell(img, r, i)
      ensures r >= CELL_SIZE * (i + 1) ==> !CellValid(Cell(p, i))
    {
      ResetCells(img, key, r, i);
      if r >= CELL_SIZE * (i + 1) {
        ErasedResets(img, r, i);
      }
    }
    ScanFacts(p, RING_CELLS);
    if Load(p) >= c {
      var best := Scan(p).maxCell;
      assert CellValid(ResetCell(img, r, best)) && CellCounter(ResetCell(img, r, best)) >= c;
    }
  }

  lemma ErasedResets(img: Image, r: nat, i: nat)
    requires i < RING_CELLS && CELL_SIZE * (i + 1) <= r <= END_ADDR - RING_ADDR
    ensures !CellValid(ResetCell(img, r, i))
  {
    hide CellValid;
    ErasedCellInvalid();
    assert ResetCell(img, r, i) == Filled(CELL_SIZE);
  }
}
