/** The Nano's persistent state: pairing record, shared key and the wear-levelled
    counter ring, as byte images of the EEPROM and as code over the live array. */
module Eeprom {
  import opened Bytes
  import opened Crc16

  const SIZE: nat := 1024
  const MAGIC_LEN: nat := 8
  const FMT_ADDR: nat := 8
  const FORMAT_VERSION: byte := 2
  const KEY_ADDR: nat := 9
  const KEY_LEN: nat := 16
  const RING_ADDR: nat := 32
  const RING_CELLS: nat := 16
  const CELL_SIZE: nat := 10
  const END_ADDR: nat := 192
  const RECORD_LEN: nat := 25
  const PAIRING_LEN: nat := 185

  /** "R503FPv2" */
  const MAGIC: bytes := [0x52, 0x35, 0x30, 0x33, 0x46, 0x50, 0x76, 0x32]

  type Image = s: bytes | |s| == 1024 witness seq(1024, _ => 0xFF)

  /** `img` with `bs` written from address `a` on. */
  function Overwrite(img: Image, a: nat, bs: bytes): (r: Image)
    requires a + |bs| <= |img|
    ensures forall i :: 0 <= i < |img| ==> r[i] == if a <= i < a + |bs| then bs[i - a] else img[i]
  {
    img[..a] + bs + img[a + |bs|..]
  }

  lemma OverwriteOneMore(img: Image, a: nat, bs: bytes, v: byte)
    requires a + |bs| < |img|
    ensures Overwrite(img, a, bs)[a + |bs| := v] == Overwrite(img, a, bs + [v])
  {
  }

  lemma OverwriteNothing(img: Image, a: nat)
    requires a <= |img|
    ensures Overwrite(img, a, []) == img
  {
  }

  /** EEPROM.update: a byte is only rewritten when it changes. */
  method Update(ee: array<byte>, a: nat, v: byte)
    requires a < ee.Length
    modifies ee
    ensures ee[..] == old(ee[..])[a := v]
  {
    if ee[a] != v {
      ee[a] := v;
    }
  }

  // ----- pairing record -----

  predicate IsPaired(img: Image) {
    img[..MAGIC_LEN] == MAGIC && img[FMT_ADDR] == FORMAT_VERSION
  }

  function KeyOf(img: Image): (k: bytes)
    ensures |k| == KEY_LEN
  {
    img[KEY_ADDR..KEY_ADDR + KEY_LEN]
  }

  method EeIsPaired(ee: array<byte>) returns (paired: bool)
    requires ee.Length == SIZE
    ensures paired == IsPaired(ee[..])
  {
    for i := 0 to MAGIC_LEN
      invariant ee[..i] == MAGIC[..i]
    {
      if ee[i] != MAGIC[i] {
        assert ee[..][..MAGIC_LEN][i] != MAGIC[i];
        return false;
      }
    }
    assert ee[..][..MAGIC_LEN] == ee[..MAGIC_LEN];
    assert MAGIC[..MAGIC_LEN] == MAGIC;
    return ee[FMT_ADDR] == FORMAT_VERSION;
  }

  method EeLoadKey(ee: array<byte>, key: array<byte>) returns (ok: bool)
    requires ee.Length == SIZE && key.Length == KEY_LEN && ee != key
    modifies key
    ensures ok == IsPaired(ee[..])
    ensures key[..] == if ok then KeyOf(ee[..]) else old(key[..])
  {
    ok := EeIsPaired(ee);
    if !ok {
      return;
    }
    for i := 0 to KEY_LEN
      invariant key[..i] == ee[KEY_ADDR..KEY_ADDR + i]
    {
      key[i] := ee[KEY_ADDR + i];
    }
    assert key[..] == key[..KEY_LEN];
    assert KeyOf(ee[..]) == ee[KEY_ADDR..KEY_ADDR + KEY_LEN];
  }

  function Filled(n: nat): (s: bytes)
    ensures |s| == n
  {
    seq(n, _ => 0xFF)
  }

  /** What pairing writes before it erases the ring. */
  function Record(key: bytes): (r: bytes)
    requires |key| == KEY_LEN
    ensures |r| == RECORD_LEN
  {
    MAGIC + [FORMAT_VERSION] + key
  }

  /** The image after the first `k` bytes of a pairing: record, then ring bytes to 0xFF. */
  function PairingPrefix(img: Image, key: bytes, k: nat): Image
    requires |key| == KEY_LEN && k <= PAIRING_LEN
  {
    if k <= RECORD_LEN then Overwrite(img, 0, Record(key)[..k])
    else Overwrite(Overwrite(img, 0, Record(key)), RING_ADDR, Filled(k - RECORD_LEN))
  }

  /** The image right after pairing with `key`: record written, every ring byte 0xFF. */
  function PairedImage(img: Image, key: bytes): Image
    requires |key| == KEY_LEN
  {
    Overwrite(Overwrite(img, 0, Record(key)), RING_ADDR, Filled(END_ADDR - RING_ADDR))
  }

  /** ee_save_pairing, with power lost after `cut` bytes; a completed pairing has
      cut >= PAIRING_LEN. */
  method EeSavePairing(ee: array<byte>, key: bytes, cut: nat)
    requires ee.Length == SIZE && |key| == KEY_LEN
    modifies ee
    ensures ee[..] == PairingPrefix(old(ee[..]), key, if cut < PAIRING_LEN then cut else PAIRING_LEN)
  {
    hide Overwrite;
    WriteRecord(ee, key, cut);
    if cut > RECORD_LEN {
      assert Record(key)[..RECORD_LEN] == Record(key);
      ResetRing(ee, cut - RECORD_LEN);
    }
  }

  /** The first three parts of ee_save_pairing: magic, format, key. */
  method WriteRecord(ee: array<byte>, key: bytes, cut: nat)
    requires ee.Length == SIZE && |key| == KEY_LEN
    modifies ee
    ensures ee[..] == Overwrite(old(ee[..]), 0, Record(key)[..if cut < RECORD_LEN then cut else RECORD_LEN])
  {
    hide Overwrite;
    ghost var img, record := ee[..], Record(key);
    OverwriteNothing(img, 0);
    assert record[..0] == [];
    var i := 0;
    while i < MAGIC_LEN && i < cut
      invariant i <= MAGIC_LEN && i <= cut
      invariant ee[..] == Overwrite(img, 0, record[..i])
    {
      RecordOneMore(img, record, i);
      Update(ee, i, MAGIC[i]);
      i := i + 1;
    }
    if cut <= MAGIC_LEN {
      return;
    }
    RecordOneMore(img, record, FMT_ADDR);
    Update(ee, FMT_ADDR, FORMAT_VERSION);
    i := 0;
    while i < KEY_LEN && KEY_ADDR + i < cut
      invariant i <= KEY_LEN && KEY_ADDR + i <= cut
      invariant ee[..] == Overwrite(img, 0, record[..KEY_ADDR + i])
    {
      RecordOneMore(img, record, KEY_ADDR + i);
      Update(ee, KEY_ADDR + i, key[i]);
      i := i + 1;
    }
  }

  lemma RecordOneMore(img: Image, record: bytes, i: nat)
    requires i < |record| <= |img|
    ensures Overwrite(img, 0, record[..i])[i := record[i]] == Overwrite(img, 0, record[..i + 1])
  {
    OverwriteOneMore(img, 0, record[..i], record[i]);
    assert record[..i + 1] == record[..i] + [record[i]];
  }

  /** The tail of ee_save_pairing: ring bytes back to 0xFF, `cut` of them at most. */
  method ResetRing(ee: array<byte>, cut: nat)
    requires ee.Length == SIZE
    modifies ee
    ensures ee[..] == Overwrite(old(ee[..]), RING_ADDR,
                                Filled(if cut < END_ADDR - RING_ADDR then cut else END_ADDR - RING_ADDR))
  {
    hide Overwrite;
    ghost var img := ee[..];
    OverwriteNothing(img, RING_ADDR);
    assert Filled(0) == [];
    var a := RING_ADDR;
    while a < END_ADDR && a - RING_ADDR < cut
      invariant RING_ADDR <= a <= END_ADDR && a - RING_ADDR <= cut
      invariant ee[..] == Overwrite(img, RING_ADDR, Filled(a - RING_ADDR))
    {
      OverwriteOneMore(img, RING_ADDR, Filled(a - RING_ADDR), 0xFF);
      assert Filled(a - RING_ADDR) + [0xFF] == Filled(a + 1 - RING_ADDR);
      Update(ee, a, 0xFF);
      a := a + 1;
    }
  }

  /** The image after the first `k` bytes of a wipe. */
  function WipedPrefix(img: Image, k: nat): Image
    requires k <= END_ADDR
  {
    Overwrite(img, 0, Filled(k))
  }

  /** ee_wipe, with power lost after `cut` bytes; a completed wipe has cut >= END_ADDR. */
  method EeWipe(ee: array<byte>, cut: nat)
    requires ee.Length == SIZE
    modifies ee
    ensures ee[..] == WipedPrefix(old(ee[..]), if cut < END_ADDR then cut else END_ADDR)
  {
    hide Overwrite;
    OverwriteNothing(ee[..], 0);
    assert Filled(0) == [];
    var a := 0;
    while a < END_ADDR && a < cut
      invariant a <= END_ADDR && a <= cut
      invariant ee[..] == WipedPrefix(old(ee[..]), a)
    {
      OverwriteOneMore(old(ee[..]), 0, Filled(a), 0xFF);
      assert Filled(a) + [0xFF] == Filled(a + 1);
      Update(ee, a, 0xFF);
      a := a + 1;
    }
  }

  // ----- ring cells -----

  function StoredCrc(lo: byte, hi: byte): bv16 {
    (Bits(lo) as bv16) | ((Bits(hi) as bv16) << 8)
  }

  function CrcLow(c: bv16): byte {
    ((c & 0xFF) as bv8) as int
  }

  function CrcHigh(c: bv16): byte {
    ((c >> 8) as bv8) as int
  }

  lemma StoredCrcOf(c: bv16)
    ensures StoredCrc(CrcLow(c), CrcHigh(c)) == c
  {
    BitsOfInt((c & 0xFF) as bv8);
    BitsOfInt((c >> 8) as bv8);
    SplitWord(c);
  }

  lemma {:induction false} SplitWord(c: bv16)
    ensures (((c & 0xFF) as bv8) as bv16) | ((((c >> 8) as bv8) as bv16) << 8) == c
  {
  }

  function CellAddr(i: nat): (a: nat)
    requires i < RING_CELLS
    ensures RING_ADDR <= a <= END_ADDR - CELL_SIZE
  {
    RING_ADDR + i * CELL_SIZE
  }

  function Cell(img: Image, i: nat): (c: bytes)
    requires i < RING_CELLS
    ensures |c| == CELL_SIZE
  {
    img[CellAddr(i)..CellAddr(i) + CELL_SIZE]
  }

  predicate CellValid(c: bytes)
    requires |c| == CELL_SIZE
  {
    StoredCrc(c[8], c[9]) == Crc(c[..8])
  }

  function CellCounter(c: bytes): u64
    requires |c| == CELL_SIZE
  {
    LeValueBound(c[..8]);
    Pow256Eight();
    LeValue(c[..8])
  }

  function EncodeCell(n: u64): (c: bytes)
    ensures |c| == CELL_SIZE
  {
    var payload := LeBytes(n, 8);
    payload + [CrcLow(Crc(payload)), CrcHigh(Crc(payload))]
  }

  lemma EncodedCell(n: u64)
    ensures EncodeCell(n)[..8] == LeBytes(n, 8)
    ensures CellValid(EncodeCell(n)) && CellCounter(EncodeCell(n)) == n
  {
    assert EncodeCell(n)[..8] == LeBytes(n, 8);
    StoredCrcOf(Crc(LeBytes(n, 8)));
    Pow256Eight();
    LeRoundTrip(n, 8);
  }

  // ----- scanning the ring -----

  datatype RingScan = RingScan(maxCounter: u64, maxCell: int, anyValid: bool)

  function Look(s: RingScan, img: Image, i: nat): RingScan
    requires i < RING_CELLS
  {
    var c := Cell(img, i);
    if CellValid(c) && (!s.anyValid || CellCounter(c) > s.maxCounter)
    then RingScan(CellCounter(c), i, true)
    else s
  }

  function ScanUpTo(img: Image, n: nat): RingScan
    requires n <= RING_CELLS
  {
    if n == 0 then RingScan(0, -1, false) else Look(ScanUpTo(img, n - 1), img, n - 1)
  }

  function Scan(img: Image): RingScan {
    ScanUpTo(img, RING_CELLS)
  }

  function Load(img: Image): u64 {
    Scan(img).maxCounter
  }

  method EeScanRing(ee: array<byte>) returns (s: RingScan)
    requires ee.Length == SIZE
    ensures s == Scan(ee[..])
  {
    hide CellValid, CellCounter;
    ghost var img := ee[..];
    s := RingScan(0, -1, false);
    for i := 0 to RING_CELLS
      invariant s == ScanUpTo(img, i)
    {
      var addr := RING_ADDR + i * CELL_SIZE;
      var cell := ee[addr..addr + CELL_SIZE];
      assert cell == Cell(img, i);
      var valid := CrcMatches(cell);
      if !valid {
        continue;
      }
      var ctr := CounterOf(cell);
      if !s.anyValid || ctr > s.maxCounter {
        s := RingScan(ctr, i, true);
      }
    }
  }

  /** The scan's comparison of the stored CRC with the recomputed one. */
  method CrcMatches(cell: bytes) returns (valid: bool)
    requires |cell| == CELL_SIZE
    ensures valid == CellValid(cell)
  {
    hide Crc, StoredCrc;
    var wantCrc := Crc16Ccitt(cell, 8);
    var gotCrc := StoredCrc(cell[8], cell[9]);
    valid := gotCrc == wantCrc;
  }

  /** The shift-and-or loop of the scan, most significant byte first. */
  method CounterOf(cell: bytes) returns (ctr: u64)
    requires |cell| == CELL_SIZE
    ensures ctr == CellCounter(cell)
  {
    var v: nat := 0;
    var j := 8;
    while j > 0
      invariant 0 <= j <= 8
      invariant v == LeValue(cell[j..8])
    {
      j := j - 1;
      v := v * 256 + cell[j];
      assert cell[j..8][0] == cell[j] && cell[j..8][1..] == cell[j + 1..8];
    }
    assert cell[0..8] == cell[..8];
    LeValueBound(cell[..8]);
    Pow256Eight();
    ctr := v;
  }

  method EeLoadCounter(ee: array<byte>) returns (n: u64)
    requires ee.Length == SIZE
    ensures n == Load(ee[..])
  {
    var s := EeScanRing(ee);
    n := s.maxCounter;
  }

  // ----- saving a counter -----

  function NextCell(img: Image): (i: nat)
    ensures i < RING_CELLS
  {
    ScanFacts(img, RING_CELLS);
    var s := Scan(img);
    if s.anyValid then (s.maxCell + 1) % RING_CELLS else 0
  }

  /** The image once the first `k` bytes of the new cell are down. */
  function SavedPrefix(img: Image, n: u64, k: nat): Image
    requires k <= CELL_SIZE
  {
    Overwrite(img, CellAddr(NextCell(img)), EncodeCell(n)[..k])
  }

  function Saved(img: Image, n: u64): Image {
    SavedPrefix(img, n, CELL_SIZE)
  }

  /** ee_save_counter, with power lost after `cut` bytes; a completed save has
      cut >= CELL_SIZE. */
  method EeSaveCounter(ee: array<byte>, newCounter: u64, cut: nat)
    requires ee.Length == SIZE
    modifies ee
    ensures ee[..] == SavedPrefix(old(ee[..]), newCounter, if cut < CELL_SIZE then cut else CELL_SIZE)
  {
    hide Scan, CellValid, CellCounter, EncodeCell, Overwrite;
    ghost var img := ee[..];
    var s := EeScanRing(ee);
    ScanFacts(ee[..], RING_CELLS);
    var nextCell := if s.anyValid then (s.maxCell + 1) % RING_CELLS else 0;
    var addr := RING_ADDR + nextCell * CELL_SIZE;
    var cell := PackCell(newCounter);
    OverwriteNothing(img, addr);
    assert EncodeCell(newCounter)[..0] == [];
    var b := 0;
    while b < CELL_SIZE && b < cut
      invariant b <= CELL_SIZE && b <= cut
      invariant ee[..] == Overwrite(img, addr, EncodeCell(newCounter)[..b])
    {
      OverwriteOneMore(img, addr, EncodeCell(newCounter)[..b], cell[b]);
      assert EncodeCell(newCounter)[..b + 1] == EncodeCell(newCounter)[..b] + [cell[b]];
      Update(ee, addr + b, cell[b]);
      b := b + 1;
    }
  }

  /** The cell a save writes: the counter byte by byte, then its CRC. */
  method PackCell(newCounter: u64) returns (cell: bytes)
    ensures cell == EncodeCell(newCounter)
  {
    hide Crc, CrcLow, CrcHigh;
    var payload: bytes := [];
    for j := 0 to 8
      invariant payload == LeBytes(newCounter, 8)[..j]
    {
      LeByteAt(newCounter, 8, j);
      payload := payload + [ShiftRight8(newCounter, j) % 256];
    }
    assert payload == LeBytes(newCounter, 8);
    assert payload[..8] == payload;
    var crc := Crc16Ccitt(payload, 8);
    cell := payload + [CrcLow(crc), CrcHigh(crc)];
  }

  // ----- what a scan finds -----

  /** The scan returns the largest counter among the valid cells, and a cell holding it. */
  lemma {:induction false} ScanFacts(img: Image, n: nat)
    requires n <= RING_CELLS
    ensures ScanUpTo(img, n).anyValid <==> exists i: nat :: i < n && CellValid(Cell(img, i))
    ensures ScanUpTo(img, n).anyValid ==>
              && 0 <= ScanUpTo(img, n).maxCell < n
              && CellValid(Cell(img, ScanUpTo(img, n).maxCell))
              && CellCounter(Cell(img, ScanUpTo(img, n).maxCell)) == ScanUpTo(img, n).maxCounter
    ensures !ScanUpTo(img, n).anyValid ==> ScanUpTo(img, n).maxCounter == 0
    ensures forall i: nat :: i < n && CellValid(Cell(img, i)) ==>
              CellCounter(Cell(img, i)) <= ScanUpTo(img, n).maxCounter
  {
    hide CellValid, CellCounter, Cell;
    if n > 0 {
      ScanFacts(img, n - 1);
    }
  }
}
