/** The counter ring over whole runs: any number of completed saves of increasing
    counters, starting from a fresh pairing. */
module RingRuns {
  import opened Bytes
  import opened Eeprom
  import opened EepromRing

  /** The EEPROM and how many times each ring cell has been written. */
  datatype Ring = Ring(img: Image, wear: seq<nat>)

  predicate Increasing(cs: seq<u64>) {
    forall i, j :: 0 <= i < j < |cs| ==> cs[i] < cs[j]
  }

  /** The ring after pairing over `img` and then saving `cs` in order. */
  function Run(img: Image, key: bytes, cs: seq<u64>): (r: Ring)
    requires |key| == KEY_LEN
    ensures |r.wear| == RING_CELLS
  {
    if cs == [] then Ring(PairedImage(img, key), seq(RING_CELLS, _ => 0))
    else
      var before := Run(img, key, cs[..|cs| - 1]);
      var cell := NextCell(before.img);
      Ring(Saved(before.img, cs[|cs| - 1]), before.wear[cell := before.wear[cell] + 1])
  }

  /** The last of the first `n` saves that went to cell `i`, counting from 0. */
  function LastSave(n: nat, i: nat): (j: nat)
    requires i < RING_CELLS && i < n
    ensures j < n && j % RING_CELLS == i && n <= j + RING_CELLS
  {
    n - 1 - (n - 1 - i) % RING_CELLS
  }

  /** Cell `i` holds the last counter saved there, or is still erased. */
  ghost predicate CellHolds(img: Image, cs: seq<u64>, i: nat)
    requires i < RING_CELLS
  {
    Cell(img, i) == if i < |cs| then EncodeCell(cs[LastSave(|cs|, i)]) else Filled(CELL_SIZE)
  }

  ghost predicate Holds(img: Image, cs: seq<u64>) {
    forall i: nat :: i < RING_CELLS ==> CellHolds(img, cs, i)
  }

  lemma LastSaveTop(n: nat)
    requires n > 0
    ensures (n - 1) % RING_CELLS < n
    ensures LastSave(n, (n - 1) % RING_CELLS) == n - 1
    ensures forall i: nat :: i < RING_CELLS && i < n && i != (n - 1) % RING_CELLS ==> LastSave(n, i) < n - 1
  {
  }

  lemma LastSaveStep(n: nat, i: nat)
    requires i < RING_CELLS && i < n + 1
    ensures i == n % RING_CELLS ==> LastSave(n + 1, i) == n
    ensures i != n % RING_CELLS ==> i < n && LastSave(n + 1, i) == LastSave(n, i)
  {
  }

  lemma HeldCell(img: Image, cs: seq<u64>, i: nat)
    requires i < RING_CELLS && CellHolds(img, cs, i)
    ensures CellValid(Cell(img, i)) <==> i < |cs|
    ensures i < |cs| ==> CellCounter(Cell(img, i)) == cs[LastSave(|cs|, i)]
  {
    hide EncodeCell, CellValid, CellCounter, Cell, LastSave;
    ErasedCellInvalid();
    if i < |cs| {
      EncodedCell(cs[LastSave(|cs|, i)]);
    }
  }

  /** A ring that holds an increasing run loads its last counter and writes next to the
      cell after that one. */
  lemma HoldsLoads(img: Image, cs: seq<u64>)
    requires Increasing(cs) && Holds(img, cs)
    ensures Load(img) == if cs == [] then 0 else cs[|cs| - 1]
    ensures NextCell(img) == |cs| % RING_CELLS
  {
    hide CellHolds, CellValid, CellCounter, Cell, LastSave;
    var n := |cs|;
    forall i: nat | i < RING_CELLS
      ensures CellValid(Cell(img, i)) <==> i < n
      ensures i < n ==> CellCounter(Cell(img, i)) == cs[LastSave(n, i)]
    {
      HeldCell(img, cs, i);
    }
    ScanFacts(img, RING_CELLS);
    if n > 0 {
      LastSaveTop(n);
      var top, best := (n - 1) % RING_CELLS, Scan(img).maxCell;
      assert CellValid(Cell(img, top));
      assert CellCounter(Cell(img, top)) == cs[n - 1];
      assert best == top;
      NextIndex(n);
    }
  }

  lemma NextIndex(n: nat)
    requires n > 0
    ensures ((n - 1) % RING_CELLS + 1) % RING_CELLS == n % RING_CELLS
  {
  }

  /** One more save keeps the ring holding the run. */
  lemma HoldsStep(img: Image, cs: seq<u64>, c: u64)
    requires Increasing(cs) && Holds(img, cs)
    ensures Holds(Saved(img, c), cs + [c])
  {
    HoldsLoads(img, cs);
    forall i: nat | i < RING_CELLS ensures CellHolds(Saved(img, c), cs + [c], i) {
      CellStep(img, cs, c, i);
    }
  }

  lemma CellStep(img: Image, cs: seq<u64>, c: u64, i: nat)
    requires i < RING_CELLS && CellHolds(img, cs, i) && NextCell(img) == |cs| % RING_CELLS
    ensures CellHolds(Saved(img, c), cs + [c], i)
  {
    hide EncodeCell, Cell, NextCell, SavedPrefix, LastSave;
    CellsAfterPrefix(img, c, CELL_SIZE, i);
    assert EncodeCell(c)[..CELL_SIZE] + Cell(img, NextCell(img))[CELL_SIZE..] == EncodeCell(c);
    if i < |cs| + 1 {
      LastSaveStep(|cs|, i);
    }
  }

  lemma FreshHolds(img: Image, key: bytes)
    requires |key| == KEY_LEN
    ensures Holds(PairedImage(img, key), [])
  {
    hide PairedImage, Cell, Filled;
    forall i: nat | i < RING_CELLS ensures CellHolds(PairedImage(img, key), [], i) {
      PairedCells(img, key, i);
    }
  }

  /** Saves after which cell `i` has been written, spread evenly over the ring. */
  function EvenWear(n: nat, i: nat): nat
    requires i < RING_CELLS
  {
    (n + RING_CELLS - 1 - i) / RING_CELLS
  }

  lemma {:induction false} RunHolds(img: Image, key: bytes, cs: seq<u64>)
    requires |key| == KEY_LEN && Increasing(cs)
    ensures var r := Run(img, key, cs);
            && Holds(r.img, cs)
            && IsPaired(r.img) && KeyOf(r.img) == key
            && (forall i: nat :: i < RING_CELLS ==> r.wear[i] == EvenWear(|cs|, i))
  {
    hide Saved, SavedPrefix, PairedImage, IsPaired, KeyOf, NextCell, Holds;
    if cs == [] {
      FreshHolds(img, key);
      PairedRecord(img, key);
    } else {
      var n := |cs| - 1;
      var before, c := Run(img, key, cs[..n]), cs[n];
      RunHolds(img, key, cs[..n]);
      assert cs == cs[..n] + [c];
      assert forall i, j :: 0 <= i < j < n ==> cs[..n][i] < cs[..n][j];
      HoldsLoads(before.img, cs[..n]);
      HoldsStep(before.img, cs[..n], c);
      SavedKeepsPairing(before.img, c);
      forall i: nat | i < RING_CELLS ensures Run(img, key, cs).wear[i] == EvenWear(|cs|, i) {
        WearStep(n, i);
      }
    }
  }

  lemma SavedKeepsPairing(img: Image, c: u64)
    ensures IsPaired(Saved(img, c)) == IsPaired(img) && KeyOf(Saved(img, c)) == KeyOf(img)
  {
    PairingSurvivesPrefix(img, c, CELL_SIZE);
  }

  lemma WearStep(n: nat, i: nat)
    requires i < RING_CELLS
    ensures EvenWear(n + 1, i) == EvenWear(n, i) + if i == n % RING_CELLS then 1 else 0
  {
  }

  /** The valid cells' counters. */
  ghost function ValidCounters(img: Image): set<u64> {
    set i: nat | i < RING_CELLS && CellValid(Cell(img, i)) :: CellCounter(Cell(img, i))
  }

  /** After any run of completed saves: the last counter loads, exactly the last sixteen
      are still in the ring, pairing and key are intact, and no cell has been written more
      than once more than any other. */
  lemma RingOverRuns(img: Image, key: bytes, cs: seq<u64>)
    requires |key| == KEY_LEN && Increasing(cs)
    ensures var r := Run(img, key, cs);
            && Load(r.img) == (if cs == [] then 0 else cs[|cs| - 1])
            && ValidCounters(r.img) == (set j: nat | j < |cs| && |cs| <= j + RING_CELLS :: cs[j])
            && IsPaired(r.img) && KeyOf(r.img) == key
    ensures forall i: nat, j: nat :: i < RING_CELLS && j < RING_CELLS ==>
              Run(img, key, cs).wear[i] <= Run(img, key, cs).wear[j] + 1
  {
    hide Run, IsPaired, KeyOf, Load;
    RunHolds(img, key, cs);
    HoldsLoads(Run(img, key, cs).img, cs);
    HoldsValidCounters(Run(img, key, cs).img, cs);
  }

  lemma HoldsValidCounters(img: Image, cs: seq<u64>)
    requires Holds(img, cs)
    ensures ValidCounters(img) == (set j: nat | j < |cs| && |cs| <= j + RING_CELLS :: cs[j])
  {
    hide CellHolds, CellValid, CellCounter, Cell, LastSave;
    var n := |cs|;
    forall i: nat | i < RING_CELLS
      ensures CellValid(Cell(img, i)) <==> i < n
      ensures i < n ==> CellCounter(Cell(img, i)) == cs[LastSave(n, i)]
    {
      HeldCell(img, cs, i);
    }
    forall j: nat | j < n && n <= j + RING_CELLS ensures cs[j] in ValidCounters(img) {
      LastSaveUnique(n, j);
      assert CellCounter(Cell(img, j % RING_CELLS)) == cs[j];
    }
  }

  lemma LastSaveUnique(n: nat, j: nat)
    requires j < n && n <= j + RING_CELLS
    ensures j % RING_CELLS < n && LastSave(n, j % RING_CELLS) == j
  {
  }
}
