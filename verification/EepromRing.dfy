/** What the counter ring guarantees: torn writes, whole runs, and the cases it does
    not cover. */
module EepromRing {
  import opened Bytes
  import opened Registers
  import opened Crc16
  import opened Eeprom

  // ----- one save, cut anywhere -----

  /** The cell under the write after `k` bytes: new bytes first, old bytes after. */
  function MixedCell(img: Image, n: u64, k: nat): (c: bytes)
    requires k <= CELL_SIZE
    ensures |c| == CELL_SIZE
  {
    EncodeCell(n)[..k] + Cell(img, NextCell(img))[k..]
  }

  lemma CellsApart(i: nat, j: nat)
    requires i < RING_CELLS && j < RING_CELLS && i != j
    ensures CellAddr(i) + CELL_SIZE <= CellAddr(j) || CellAddr(j) + CELL_SIZE <= CellAddr(i)
  {
  }

  lemma CellsAfterPrefix(img: Image, n: u64, k: nat, i: nat)
    requires k <= CELL_SIZE && i < RING_CELLS
    ensures Cell(SavedPrefix(img, n, k), i)
         == if i == NextCell(img) then MixedCell(img, n, k) else Cell(img, i)
  {
    hide NextCell, EncodeCell;
    if i != NextCell(img) {
      CellsApart(i, NextCell(img));
    }
  }

  /** A save never touches the pairing record or the key. */
  lemma PairingSurvivesPrefix(img: Image, n: u64, k: nat)
    requires k <= CELL_SIZE
    ensures IsPaired(SavedPrefix(img, n, k)) == IsPaired(img)
    ensures KeyOf(SavedPrefix(img, n, k)) == KeyOf(img)
  {
    hide NextCell, EncodeCell;
    assert SavedPrefix(img, n, k)[..MAGIC_LEN] == img[..MAGIC_LEN];
  }

  /** The cell holding the maximum is never the one written. */
  lemma NextCellSparesMaximum(img: Image)
    ensures Scan(img).anyValid ==> NextCell(img) != Scan(img).maxCell
  {
    hide CellValid, CellCounter, Cell;
    ScanFacts(img, RING_CELLS);
  }

  /** A value that bounds every valid counter and is reached, or is 0, is what loads. */
  lemma LoadIs(img: Image, v: u64)
    requires forall i: nat :: i < RING_CELLS && CellValid(Cell(img, i)) ==> CellCounter(Cell(img, i)) <= v
    requires v == 0 || exists i: nat :: i < RING_CELLS && CellValid(Cell(img, i)) && CellCounter(Cell(img, i)) == v
    ensures Load(img) == v
  {
    hide CellValid, CellCounter, Cell;
    ScanFacts(img, RING_CELLS);
  }

  /** What loads after any byte prefix of any save over any EEPROM contents. */
  lemma LoadAfterPrefix(img: Image, n: u64, k: nat)
    requires k <= CELL_SIZE
    ensures Load(SavedPrefix(img, n, k))
         == var m := MixedCell(img, n, k);
            if CellValid(m) && CellCounter(m) > Load(img) then CellCounter(m) else Load(img)
  {
    hide CellValid, CellCounter, Cell, MixedCell, SavedPrefix, Scan;
    var after, m, t := SavedPrefix(img, n, k), MixedCell(img, n, k), NextCell(img);
    var v := if CellValid(m) && CellCounter(m) > Load(img) then CellCounter(m) else Load(img);
    forall i: nat | i < RING_CELLS
      ensures Cell(after, i) == if i == t then m else Cell(img, i)
    {
      CellsAfterPrefix(img, n, k, i);
    }
    ScanOfAll(img);
    NextCellSparesMaximum(img);
    assert Cell(after, t) == m;
    if v == Load(img) && v != 0 {
      var best := Scan(img).maxCell;
      assert Cell(after, best) == Cell(img, best);
    }
    LoadIs(after, v);
  }

  lemma ScanOfAll(img: Image)
    ensures var s := Scan(img);
            && (s.anyValid ==> 0 <= s.maxCell < RING_CELLS && CellValid(Cell(img, s.maxCell))
                               && CellCounter(Cell(img, s.maxCell)) == Load(img))
            && (!s.anyValid ==> Load(img) == 0)
    ensures forall i: nat :: i < RING_CELLS && CellValid(Cell(img, i)) ==> CellCounter(Cell(img, i)) <= Load(img)
  {
    hide CellValid, CellCounter, Cell;
    ScanFacts(img, RING_CELLS);
  }

  /** Power loss never rewinds the counter, whatever the EEPROM held. */
  lemma PowerLossNeverRewinds(img: Image, n: u64, k: nat)
    requires k <= CELL_SIZE
    ensures Load(SavedPrefix(img, n, k)) >= Load(img)
  {
    LoadAfterPrefix(img, n, k);
  }

  /** A completed save of a larger counter is what loads next. */
  lemma CompletedSaveLoads(img: Image, n: u64)
    ensures Load(Saved(img, n)) == if n > Load(img) then n else Load(img)
  {
    assert MixedCell(img, n, CELL_SIZE) == EncodeCell(n);
    EncodedCell(n);
    LoadAfterPrefix(img, n, CELL_SIZE);
  }

  // ----- torn writes over a valid cell -----

  /** Cutting a save over a CRC-valid cell leaves the old maximum or the new counter,
      never a mixture, as long as the two counters differ only in three adjacent bytes. */
  lemma TornWriteExact(img: Image, n: u64, k: nat, j: nat)
    requires k <= CELL_SIZE && j + 3 <= 8 && n > Load(img)
    requires CellValid(Cell(img, NextCell(img)))
    requires EncodeCell(n)[..j] == Cell(img, NextCell(img))[..j]
    requires LeBytes(n, 8)[j + 3..] == Cell(img, NextCell(img))[j + 3..8]
    ensures Load(SavedPrefix(img, n, k)) == Load(img) || Load(SavedPrefix(img, n, k)) == n
    ensures k < j + 3 ==> Load(SavedPrefix(img, n, k)) == Load(img)
  {
    var was := Cell(img, NextCell(img));
    LoadAfterPrefix(img, n, k);
    ScanOfAll(img);
    hide EncodeCell, NextCell, Cell, Load, CellValid, CellCounter, SavedPrefix;
    if k < j + 3 {
      EarlyCut(EncodeCell(n), was, k, j);
    } else {
      LateCut(n, was, k, j);
    }
  }

  lemma EarlyCut(written: bytes, was: bytes, k: nat, j: nat)
    requires |written| == |was| == CELL_SIZE && j + 3 <= 8 && k < j + 3
    requires CellValid(was) && written[..j] == was[..j]
    ensures CellValid(written[..k] + was[k..]) ==> written[..k] + was[k..] == was
  {
    hide CellValid;
    var m := written[..k] + was[k..];
    if CellValid(m) {
      MixedOutside(written, was, m, k, j);
      TailDecides(m, was, j);
    }
  }

  /** A mixture cut by byte `j + 2` differs from the old cell in bytes `j` and `j + 1` at most. */
  lemma MixedOutside(written: bytes, was: bytes, m: bytes, k: nat, j: nat)
    requires |written| == |was| == CELL_SIZE && j + 3 <= 8 && k < j + 3 && written[..j] == was[..j]
    requires m == written[..k] + was[k..]
    ensures |m| == CELL_SIZE && m[..j] == was[..j] && m[j + 2..8] == was[j + 2..8] && m[8..] == was[8..]
  {
    assert forall i :: k <= i < CELL_SIZE ==> m[i] == was[i];
    assert forall i :: 0 <= i < j ==> written[i] == written[..j][i] == was[i];
  }

  lemma LateCut(n: u64, was: bytes, k: nat, j: nat)
    requires |was| == CELL_SIZE && k <= CELL_SIZE && j + 3 <= 8 && k >= j + 3
    requires LeBytes(n, 8)[j + 3..] == was[j + 3..8]
    ensures CellCounter(EncodeCell(n)[..k] + was[k..]) == n
  {
    EncodedCell(n);
    var m := EncodeCell(n)[..k] + was[k..];
    hide EncodeCell, CellCounter;
    forall i | 0 <= i < 8 ensures m[i] == EncodeCell(n)[i] {
      if i >= k {
        assert EncodeCell(n)[..8][i] == EncodeCell(n)[i];
        assert LeBytes(n, 8)[j + 3..][i - j - 3] == was[j + 3..8][i - j - 3];
      }
    }
    SameCounter(m, EncodeCell(n));
  }

  lemma SameCounter(c: bytes, d: bytes)
    requires |c| == |d| == CELL_SIZE && c[..8] == d[..8]
    ensures CellCounter(c) == CellCounter(d)
  {
  }

  /** Two valid cells with the same CRC bytes, alike outside two adjacent bytes, are equal. */
  lemma TailDecides(c: bytes, d: bytes, j: nat)
    requires |c| == |d| == CELL_SIZE && j + 2 <= 8
    requires CellValid(c) && CellValid(d) && c[8..] == d[8..]
    requires c[..j] == d[..j] && c[j + 2..8] == d[j + 2..8]
    ensures c == d
  {
    hide Crc, StoredCrc;
    assert c[8] == c[8..][0] && c[9] == c[8..][1];
    assert d[8] == d[8..][0] && d[9] == d[8..][1];
    assert c[..8][..j] == d[..8][..j];
    assert c[..8][j + 2..] == d[..8][j + 2..];
    AdjacentChangeDetected(c[..8], d[..8], j);
    assert c == c[..8] + c[8..];
    assert d == d[..8] + d[8..];
  }

  lemma LeAbove(n: nat, k: nat)
    requires k >= 3
    ensures LeBytes(n, k)[3..] == LeBytes(n / 0x100_0000, k - 3)
  {
    var m := n / 256;
    assert LeBytes(n, k)[1..] == LeBytes(m, k - 1);
    assert LeBytes(m, k - 1)[1..] == LeBytes(m / 256, k - 2);
    assert LeBytes(m / 256, k - 2)[1..] == LeBytes(m / 256 / 256, k - 3);
    assert LeBytes(n, k)[3..] == LeBytes(n, k)[1..][1..][1..];
    assert m / 256 / 256 == n / 0x100_0000;
  }

  /** The same, told by the counters: it covers every save in the first 2^24. */
  lemma TornSaveExact(img: Image, n: u64, k: nat)
    requires k <= CELL_SIZE && n > Load(img)
    requires CellValid(Cell(img, NextCell(img)))
    requires CellCounter(Cell(img, NextCell(img))) / 0x100_0000 == n / 0x100_0000
    ensures Load(SavedPrefix(img, n, k)) == Load(img) || Load(SavedPrefix(img, n, k)) == n
  {
    var was := Cell(img, NextCell(img));
    LeBytesOfValue(was[..8]);
    LeAbove(n, 8);
    LeAbove(CellCounter(was), 8);
    EncodedCell(n);
    hide NextCell, CellValid, Load, EncodeCell;
    assert was[..8][3..] == was[3..8];
    TornWriteExact(img, n, k, 0);
  }

  // ----- evaluating CRCs -----

  /** Feeds byte `i`, given as the bit vector `v`, to a register holding `c`. */
  lemma FoldStep(s: bytes, i: nat, c: bv16, v: bv8, r: bv16)
    requires i < |s| && s[i] == v as int
    requires Step(Step(Step(Step(Step(Step(Step(Step(c ^ ((v as bv16) << 8))))))))) == r
    ensures Fold(Feed, c, s[i..]) == Fold(Feed, r, s[i + 1..])
  {
    FeedIs(c, s[i], v, r);
    hide Feed, Step;
    assert s[i..][0] == s[i] && s[i..][1..] == s[i + 1..];
  }

  lemma FoldEnds(s: bytes, c: bv16)
    requires Fold(Feed, INIT, s[0..]) == Fold(Feed, c, s[|s|..])
    ensures Crc(s) == c
  {
    assert s[0..] == s;
    assert s[|s|..] == [];
  }

  lemma CrcOfErased(s: bytes)
    requires s == [0xFF, 0xFF, 0xFF, 0xFF, 0xFF, 0xFF, 0xFF, 0xFF]
    ensures Crc(s) == 0x97DF
  {
    hide Fold, Feed;
    FoldStep(s, 0, 0xFFFF, 0xFF, 0xFF00);
    FoldStep(s, 1, 0xFF00, 0xFF, 0x0000);
    FoldStep(s, 2, 0x0000, 0xFF, 0x1EF0);
    FoldStep(s, 3, 0x1EF0, 0xFF, 0x1D0F);
    FoldStep(s, 4, 0x1D0F, 0xFF, 0xD26C);
    FoldStep(s, 5, 0xD26C, 0xFF, 0x99CF);
    FoldStep(s, 6, 0x99CF, 0xFF, 0xC360);
    FoldStep(s, 7, 0xC360, 0xFF, 0x97DF);
    FoldEnds(s, 0x97DF);
  }

  lemma StoredCrcErased()
    ensures StoredCrc(0xFF, 0xFF) == 0xFFFF
  {
    SameValueSameBits(Bits(0xFF), 0xFF);
  }

  // ----- a fresh ring -----

  /** The cell of a ring byte range that pairing just erased. */
  lemma PairedCells(img: Image, key: bytes, i: nat)
    requires |key| == KEY_LEN && i < RING_CELLS
    ensures Cell(PairedImage(img, key), i) == Filled(CELL_SIZE)
  {
  }

  lemma PairedRecord(img: Image, key: bytes)
    requires |key| == KEY_LEN
    ensures IsPaired(PairedImage(img, key)) && KeyOf(PairedImage(img, key)) == key
  {
    var p := PairedImage(img, key);
    assert p[..MAGIC_LEN] == MAGIC;
    assert p[KEY_ADDR..KEY_ADDR + KEY_LEN] == key;
  }

  lemma ErasedCellInvalid()
    ensures !CellValid(Filled(CELL_SIZE))
  {
    hide Crc, StoredCrc;
    assert Filled(CELL_SIZE)[..8] == [0xFF, 0xFF, 0xFF, 0xFF, 0xFF, 0xFF, 0xFF, 0xFF];
    CrcOfErased(Filled(CELL_SIZE)[..8]);
    StoredCrcErased();
  }

  lemma FreshRing(img: Image, key: bytes)
    requires |key| == KEY_LEN
    ensures !Scan(PairedImage(img, key)).anyValid && Load(PairedImage(img, key)) == 0
    ensures NextCell(PairedImage(img, key)) == 0
  {
    hide CellValid, PairedImage;
    var p := PairedImage(img, key);
    ErasedCellInvalid();
    forall i: nat | i < RING_CELLS ensures !CellValid(Cell(p, i)) {
      PairedCells(img, key, i);
    }
    ScanFacts(p, RING_CELLS);
  }
}
