/** The sealed-key file: its byte format, what its reader accepts, and where it panics. */
module SealedBlob {
  import opened Bytes
  import opened Outcomes

  // "R503TPM" and a version byte
  const MAGIC_V1: bytes := [0x52, 0x35, 0x30, 0x33, 0x54, 0x50, 0x4D, 1]
  const MAGIC_V2: bytes := [0x52, 0x35, 0x30, 0x33, 0x54, 0x50, 0x4D, 2]
  const MAGIC_V3: bytes := [0x52, 0x35, 0x30, 0x33, 0x54, 0x50, 0x4D, 3]
  const MAGIC_LEN: nat := 8
  const DEFAULT_PCRS: bytes := [7]
  const MAX_FIELD: nat := 65536

  datatype Policy = Pcrs(pcrs: bytes) | NoPolicy

  datatype Blob = Blob(policy: Policy, public: bytes, private: bytes)

  datatype Decoded = Accepted(blob: Blob) | Rejected | Panic

  // ----- PCR lists -----

  function Insert(v: byte, s: bytes): bytes {
    if s == [] || v <= s[0] then [v] + s else [s[0]] + Insert(v, s[1..])
  }

  function SortOf(s: bytes): bytes {
    if s == [] then [] else Insert(s[0], SortOf(s[1..]))
  }

  /** Runs of equal neighbours become one. */
  function Dedup(s: bytes): (r: bytes)
    ensures |r| <= |s|
    ensures s != [] ==> r != [] && r[0] == s[0]
  {
    if |s| <= 1 then s
    else if s[0] == s[1] then Dedup(s[1..])
    else [s[0]] + Dedup(s[1..])
  }

  predicate Ascending(s: bytes) {
    forall i, j :: 0 <= i < j < |s| ==> s[i] <= s[j]
  }

  predicate Distinct(s: bytes) {
    forall i, j :: 0 <= i < j < |s| ==> s[i] != s[j]
  }

  lemma {:induction false} InsertCounts(v: byte, s: bytes)
    ensures multiset(Insert(v, s)) == multiset(s) + multiset{v}
  {
    if s != [] && v > s[0] {
      InsertCounts(v, s[1..]);
      assert s == [s[0]] + s[1..];
    }
  }

  lemma {:induction false} InsertAscends(v: byte, s: bytes)
    requires Ascending(s)
    ensures Ascending(Insert(v, s))
    ensures Insert(v, s) != [] && Insert(v, s)[0] == if s == [] || v <= s[0] then v else s[0]
  {
    if s != [] && v > s[0] {
      InsertAscends(v, s[1..]);
      AscendsFrom(s[0], Insert(v, s[1..]));
    } else if s != [] {
      AscendsFrom(v, s);
    }
  }

  lemma AscendsFrom(v: byte, s: bytes)
    requires Ascending(s) && (s != [] ==> v <= s[0])
    ensures Ascending([v] + s)
  {
  }

  lemma {:induction false} SortIsSorted(s: bytes)
    ensures Ascending(SortOf(s)) && multiset(SortOf(s)) == multiset(s)
  {
    if s != [] {
      SortIsSorted(s[1..]);
      InsertAscends(s[0], SortOf(s[1..]));
      InsertCounts(s[0], SortOf(s[1..]));
      assert s == [s[0]] + s[1..];
    }
  }

  /** Deduplication shortens an ascending list exactly when something occurs twice. */
  lemma {:induction false} DedupCounts(s: bytes)
    requires Ascending(s)
    ensures |Dedup(s)| == |s| <==> Distinct(s)
  {
    if |s| > 1 {
      DedupCounts(s[1..]);
      if s[0] != s[1] {
        if Distinct(s[1..]) {
          forall j | 0 < j < |s| ensures s[0] != s[j] {
            assert s[1] <= s[j];
          }
          assert forall i, j :: 0 < i < j < |s| ==> s[i] == s[1..][i - 1] && s[j] == s[1..][j - 1];
        }
        if Distinct(s) {
          assert forall i :: 0 <= i < |s| - 1 ==> s[1..][i] == s[i + 1];
        }
      }
    }
  }

  lemma DistinctIsCounted(s: bytes)
    ensures Distinct(s) <==> forall v :: multiset(s)[v] <= 1
  {
    if Distinct(s) {
      forall v ensures multiset(s)[v] <= 1 {
        CountAtMostOne(s, v);
      }
    } else {
      var i, j :| 0 <= i < j < |s| && s[i] == s[j];
      assert s == s[..i] + [s[i]] + s[i + 1..j] + [s[j]] + s[j + 1..];
      assert multiset(s)[s[i]] >= 2;
    }
  }

  lemma {:induction false} CountAtMostOne(s: bytes, v: byte)
    requires Distinct(s)
    ensures multiset(s)[v] <= 1
  {
    if s != [] {
      assert s == [s[0]] + s[1..];
      assert forall i, j :: 0 <= i < j < |s| - 1 ==> s[1..][i] == s[i + 1] && s[1..][j] == s[j + 1];
      CountAtMostOne(s[1..], v);
      assert s[0] !in s[1..] by {
        assert forall k :: 0 <= k < |s| - 1 ==> s[1..][k] == s[k + 1] != s[0];
      }
    }
  }

  /** A PCR list the TPM bank can be asked for. */
  predicate ValidPcrs(pcrs: bytes) {
    0 < |pcrs| <= 24 && (forall i :: 0 <= i < |pcrs| ==> pcrs[i] <= 23) && Distinct(pcrs)
  }

  /** validate_pcrs: the sort-and-dedup length test means pairwise distinct. */
  method ValidatePcrs(pcrs: bytes) returns (ok: bool)
    ensures ok <==> ValidPcrs(pcrs)
  {
    if pcrs == [] || |pcrs| > 24 {
      return false;
    }
    for i := 0 to |pcrs|
      invariant forall k :: 0 <= k < i ==> pcrs[k] <= 23
    {
      if pcrs[i] > 23 {
        return false;
      }
    }
    var sorted := SortOf(pcrs);
    SortIsSorted(pcrs);
    DistinctIsCounted(pcrs);
    DistinctIsCounted(sorted);
    assert |sorted| == |multiset(sorted)| == |pcrs|;
    DedupCounts(sorted);
    sorted := Dedup(sorted);
    return |sorted| == |pcrs|;
  }

  // ----- writing -----

  /** A length-prefixed field. */
  function Field(s: bytes): bytes {
    LeBytes(|s| % TWO_32, 4) + s
  }

  function V2(pcrs: bytes): bytes {
    MAGIC_V2 + [|pcrs| % 256] + pcrs
  }

  function Header(policy: Policy): bytes {
    match policy
    case Pcrs(pcrs) => if pcrs == DEFAULT_PCRS then MAGIC_V1 else V2(pcrs)
    case NoPolicy => MAGIC_V3
  }

  function Serialize(b: Blob): bytes {
    Header(b.policy) + Field(b.public) + Field(b.private)
  }

  method SerializeBlob(policy: Policy, public: bytes, private: bytes) returns (out: bytes)
    ensures out == Serialize(Blob(policy, public, private))
  {
    hide LeBytes;
    out := [];
    match policy {
      case Pcrs(pcrs) =>
        if pcrs == DEFAULT_PCRS {
          out := out + MAGIC_V1;
        } else {
          out := out + MAGIC_V2;
          out := out + [|pcrs| % 256];
          out := out + pcrs;
        }
      case NoPolicy => out := out + MAGIC_V3;
    }
    assert out == Header(policy);
    out := out + LeBytes(|public| % TWO_32, 4);
    out := out + public;
    assert out == Header(policy) + Field(public);
    out := out + LeBytes(|private| % TWO_32, 4);
    out := out + private;
  }

  // ----- reading -----

  /** The policy a blob starts with and where its fields start. */
  function DecodeHeader(s: bytes): Option<(Policy, nat)>
    requires |s| >= MAGIC_LEN + 8
  {
    if s[..MAGIC_LEN] == MAGIC_V1 then Some((Pcrs(DEFAULT_PCRS), MAGIC_LEN))
    else if s[..MAGIC_LEN] == MAGIC_V2 then
      var count: nat := s[8];
      if count == 0 || count > 24 || 9 + count > |s| then None
      else if !ValidPcrs(s[9..9 + count]) then None
      else Some((Pcrs(s[9..9 + count]), 9 + count))
    else if s[..MAGIC_LEN] == MAGIC_V3 then Some((NoPolicy, MAGIC_LEN))
    else None
  }

  /** The two fields, which must end exactly at the end; the first length is read without
      looking whether it is there. */
  function DecodeFields(policy: Policy, s: bytes, off: nat): Decoded {
    if off + 4 > |s| then Panic
    else
      var pubLen := LeValue(s[off..off + 4]);
      if pubLen > MAX_FIELD || off + 4 + pubLen + 4 > |s| then Rejected
      else
        var at := off + 4 + pubLen;
        var privLen := LeValue(s[at..at + 4]);
        if privLen > MAX_FIELD || at + 4 + privLen != |s| then Rejected
        else Accepted(Blob(policy, s[off + 4..at], s[at + 4..]))
  }

  function Deserialize(s: bytes): Decoded {
    if |s| < MAGIC_LEN + 8 then Rejected
    else match DecodeHeader(s)
      case None => Rejected
      case Some(h) => DecodeFields(h.0, s, h.1)
  }

  method DeserializeBlob(blob: bytes) returns (r: Decoded)
    ensures r == Deserialize(blob)
  {
    hide ValidPcrs, LeValue;
    if |blob| < MAGIC_LEN + 8 {
      return Rejected;
    }
    var policy: Policy := NoPolicy;
    var off := 8;
    if blob[..8] == MAGIC_V1 {
      policy := Pcrs(DEFAULT_PCRS);
    } else if blob[..8] == MAGIC_V2 {
      var count: nat := blob[off];
      off := off + 1;
      if count == 0 || count > 24 {
        return Rejected;
      }
      if off + count > |blob| {
        return Rejected;
      }
      var pcrs := blob[off..off + count];
      off := off + count;
      var valid := ValidatePcrs(pcrs);
      if !valid {
        return Rejected;
      }
      policy := Pcrs(pcrs);
    } else if blob[..8] != MAGIC_V3 {
      return Rejected;
    }
    assert DecodeHeader(blob) == Some((policy, off));
    if off + 4 > |blob| {
      return Panic;
    }
    var pubLen := LeValue(blob[off..off + 4]);
    if pubLen > MAX_FIELD {
      return Rejected;
    }
    off := off + 4;
    if off + pubLen + 4 > |blob| {
      return Rejected;
    }
    var public := blob[off..off + pubLen];
    off := off + pubLen;
    var privLen := LeValue(blob[off..off + 4]);
    if privLen > MAX_FIELD {
      return Rejected;
    }
    off := off + 4;
    if off + privLen != |blob| {
      return Rejected;
    }
    return Accepted(Blob(policy, public, blob[off..off + privLen]));
  }

  // ----- what the reader accepts -----

  predicate ValidBlob(b: Blob) {
    && |b.public| <= MAX_FIELD && |b.private| <= MAX_FIELD
    && (b.policy.Pcrs? ==> ValidPcrs(b.policy.pcrs))
  }

  lemma FourBytes(n: nat, s: bytes)
    requires n < TWO_32 && |s| == 4
    ensures LeValue(LeBytes(n, 4)) == n
    ensures LeBytes(LeValue(s), 4) == s
    ensures LeValue(s) < TWO_32
  {
    assert Pow256(4) == TWO_32;
    LeRoundTrip(n, 4);
    LeBytesOfValue(s);
    LeValueBound(s);
  }

  lemma FieldsExact(policy: Policy, s: bytes, off: nat, b: Blob)
    requires off <= |s|
    ensures DecodeFields(policy, s, off) == Accepted(b) <==>
              && b.policy == policy && |b.public| <= MAX_FIELD && |b.private| <= MAX_FIELD
              && s[off..] == Field(b.public) + Field(b.private)
  {
    hide LeValue, LeBytes;
    var tail := s[off..];
    if |b.public| <= MAX_FIELD && |b.private| <= MAX_FIELD && tail == Field(b.public) + Field(b.private) {
      FieldsRead(s, off, b.public, b.private);
    }
    if DecodeFields(policy, s, off) == Accepted(b) {
      FieldsWritten(policy, s, off, b);
    }
  }

  lemma FieldsRead(s: bytes, off: nat, public: bytes, private: bytes)
    requires off <= |s| && |public| <= MAX_FIELD && |private| <= MAX_FIELD
    requires s[off..] == Field(public) + Field(private)
    ensures off + 8 + |public| + |private| == |s|
    ensures LeValue(s[off..off + 4]) == |public| && s[off + 4..off + 4 + |public|] == public
    ensures LeValue(s[off + 4 + |public|..off + 8 + |public|]) == |private| && s[off + 8 + |public|..] == private
  {
    hide LeValue, LeBytes;
    var tail, a := s[off..], LeBytes(|public|, 4);
    FourBytes(|public|, a);
    FourBytes(|private|, a);
    assert tail == LeBytes(|public|, 4) + public + LeBytes(|private|, 4) + private;
    assert s[off..off + 4] == tail[..4] == LeBytes(|public|, 4);
    assert s[off + 4..off + 4 + |public|] == tail[4..4 + |public|];
    assert s[off + 4 + |public|..off + 8 + |public|] == tail[4 + |public|..8 + |public|] == LeBytes(|private|, 4);
    assert s[off + 8 + |public|..] == tail[8 + |public|..];
  }

  lemma FieldsWritten(policy: Policy, s: bytes, off: nat, b: Blob)
    requires off <= |s| && DecodeFields(policy, s, off) == Accepted(b)
    ensures s[off..] == Field(b.public) + Field(b.private)
  {
    hide LeValue, LeBytes;
    var p, q := s[off..off + 4], LeValue(s[off..off + 4]);
    var at := off + 4 + q;
    var r := s[at..at + 4];
    FourBytes(0, p);
    FourBytes(0, r);
    assert s[off..] == p + s[off + 4..at] + r + s[at + 4..];
    assert Field(b.public) == p + b.public && Field(b.private) == r + b.private;
  }

  lemma HeaderRead(policy: Policy, header: bytes, rest: bytes)
    requires policy.Pcrs? ==> ValidPcrs(policy.pcrs)
    requires header == Header(policy) || (policy == Pcrs(DEFAULT_PCRS) && header == V2(DEFAULT_PCRS))
    requires |rest| >= 8
    ensures DecodeHeader(header + rest) == Some((policy, |header|))
  {
    hide Distinct;
    var s := header + rest;
    if header == MAGIC_V1 || header == MAGIC_V3 {
      assert s[..MAGIC_LEN] == header;
    } else {
      var pcrs := policy.pcrs;
      assert header == V2(pcrs);
      assert s[..MAGIC_LEN] == MAGIC_V2 && s[8] == |pcrs|;
      assert s[9..9 + |pcrs|] == pcrs;
    }
  }

  lemma HeaderWritten(s: bytes)
    requires |s| >= MAGIC_LEN + 8 && DecodeHeader(s).Some?
    ensures var (policy, off) := DecodeHeader(s).value;
            && off <= |s| && (policy.Pcrs? ==> ValidPcrs(policy.pcrs))
            && (s[..off] == Header(policy) || (policy == Pcrs(DEFAULT_PCRS) && s[..off] == V2(DEFAULT_PCRS)))
  {
    hide Distinct;
    var (policy, off) := DecodeHeader(s).value;
    assert ValidPcrs(DEFAULT_PCRS) by {
      SingleIsDistinct();
    }
    if s[..MAGIC_LEN] == MAGIC_V2 {
      assert s[..off] == s[..8] + [s[8]] + s[9..off];
    }
  }

  lemma SingleIsDistinct()
    ensures Distinct(DEFAULT_PCRS)
  {
  }

  /** The reader accepts exactly the writer's output for valid policies and fields, and the
      one version-2 spelling of the default policy. */
  lemma DeserializeExact(s: bytes, b: Blob)
    ensures Deserialize(s) == Accepted(b) <==>
              ValidBlob(b) && (s == Serialize(b)
                || (b.policy == Pcrs(DEFAULT_PCRS) && s == V2(DEFAULT_PCRS) + Field(b.public) + Field(b.private)))
  {
    hide ValidPcrs, LeBytes, LeValue, DecodeFields, DecodeHeader;
    var fields := Field(b.public) + Field(b.private);
    if ValidBlob(b) && s == Serialize(b) {
      assert s == Header(b.policy) + fields;
      AcceptsForm(s, b, Header(b.policy));
    }
    if ValidBlob(b) && b.policy == Pcrs(DEFAULT_PCRS) && s == V2(DEFAULT_PCRS) + Field(b.public) + Field(b.private) {
      assert s == V2(DEFAULT_PCRS) + fields;
      AcceptsForm(s, b, V2(DEFAULT_PCRS));
    }
    if Deserialize(s) == Accepted(b) {
      HeaderWritten(s);
      var off := DecodeHeader(s).value.1;
      FieldsExact(b.policy, s, off, b);
      FieldsExact(DecodeHeader(s).value.0, s, off, b);
      assert s == s[..off] + s[off..];
      assert s[..off] + fields == s[..off] + Field(b.public) + Field(b.private);
    }
  }

  lemma AcceptsForm(s: bytes, b: Blob, header: bytes)
    requires ValidBlob(b) && s == header + (Field(b.public) + Field(b.private))
    requires header == Header(b.policy) || (b.policy == Pcrs(DEFAULT_PCRS) && header == V2(DEFAULT_PCRS))
    ensures Deserialize(s) == Accepted(b)
  {
    hide ValidPcrs, LeBytes, LeValue, DecodeFields, DecodeHeader;
    var fields := Field(b.public) + Field(b.private);
    HeaderRead(b.policy, header, fields);
    assert s[|header|..] == fields;
    FieldsExact(b.policy, s, |header|, b);
  }

  /** Writing then reading returns every valid policy and fields. */
  lemma BlobRoundTrip(b: Blob)
    requires ValidBlob(b)
    ensures Deserialize(Serialize(b)) == Accepted(b)
  {
    hide Deserialize, Serialize, ValidBlob;
    DeserializeExact(Serialize(b), b);
  }

  /** Every accepted file is rewritten as it was, but for a version-2 file listing just [7]. */
  lemma RewritesItself(s: bytes)
    requires Deserialize(s).Accepted?
    ensures Serialize(Deserialize(s).blob) == s <==> !(V2(DEFAULT_PCRS) <= s)
  {
    hide Deserialize, LeBytes;
    var b := Deserialize(s).blob;
    DeserializeExact(s, b);
    assert V2(DEFAULT_PCRS) == MAGIC_V2 + [1, 7];
    if s == Serialize(b) {
      RewrittenHeader(b, s);
    } else {
      assert V2(DEFAULT_PCRS) <= V2(DEFAULT_PCRS) + Field(b.public) + Field(b.private);
    }
  }

  lemma RewrittenHeader(b: Blob, s: bytes)
    requires ValidBlob(b) && s == Serialize(b)
    ensures !(V2(DEFAULT_PCRS) <= s)
  {
    hide LeBytes;
    var v := V2(DEFAULT_PCRS);
    assert v[7] == 2 && v[8] == 1 && v[9] == 7;
    assert v <= s ==> s[7] == v[7] && s[8] == v[8] && s[9] == v[9];
    match b.policy {
      case NoPolicy => assert s[7] == 3;
      case Pcrs(pcrs) =>
        if pcrs == DEFAULT_PCRS {
          assert s[7] == 1;
        } else {
          assert s[8] == |pcrs| && s[9] == pcrs[0];
          assert |pcrs| == 1 ==> pcrs == [pcrs[0]];
        }
    }
  }

  /** The reader panics exactly on a version-2 file of at least sixteen bytes that ends
      within four bytes of a valid PCR list. */
  lemma PanicExactly(s: bytes)
    ensures Deserialize(s) == Panic <==>
              && |s| >= 16 && s[..8] == MAGIC_V2 && 0 < s[8] <= 24
              && 9 + s[8] <= |s| < 13 + s[8] && ValidPcrs(s[9..9 + s[8]])
  {
    hide ValidPcrs, LeValue;
  }

  /** For one, a file of sixteen bytes listing seven PCRs and nothing else. */
  lemma PanicExample()
    ensures Deserialize(MAGIC_V2 + [7] + [0, 1, 2, 3, 4, 5, 6]) == Panic
  {
    hide Deserialize;
    var s := MAGIC_V2 + [7] + [0, 1, 2, 3, 4, 5, 6];
    assert s[..8] == MAGIC_V2 && s[9..16] == [0, 1, 2, 3, 4, 5, 6];
    PanicExactly(s);
  }

  /** A 32-bit length, lowest byte first. */
  function Le32(n: nat): bytes
    requires n <= 65536
  {
    [n % 256, n / 256 % 256, n / 65536, 0]
  }

  lemma Le32Is(n: nat)
    requires n <= 65536
    ensures LeBytes(n, 4) == Le32(n)
  {
    var a, b := n / 256, n / 65536;
    assert a / 256 == b && b / 256 == 0;
    assert LeBytes(0, 1) == [0];
    assert LeBytes(b, 2) == [b] + LeBytes(0, 1);
    assert LeBytes(a, 3) == [a % 256] + LeBytes(b, 2);
  }

  /** The file, byte for byte: "R503TPM", a version, for version 2 a counted PCR list, and two
      fields of at most 65536 bytes. PCR 7 alone is version 1, no policy is version 3. Such a
      file is what the writer writes, and is read back. */
  lemma FileFormat(b: Blob, file: bytes)
    requires |b.public| <= 65536 && |b.private| <= 65536
    requires b.policy.Pcrs? ==>
               0 < |b.policy.pcrs| <= 24 && Distinct(b.policy.pcrs) && forall i :: i in b.policy.pcrs ==> i < 24
    requires file == Ascii("R503TPM")
                     + (if b.policy == NoPolicy then [3] else if b.policy.pcrs == [7] then [1]
                        else [2, |b.policy.pcrs|] + b.policy.pcrs)
                     + Le32(|b.public|) + b.public + Le32(|b.private|) + b.private
    ensures Serialize(b) == file && Deserialize(file) == Accepted(b)
  {
    hide LeBytes, Deserialize, Le32, Distinct;
    Le32Is(|b.public|);
    Le32Is(|b.private|);
    if b.policy.Pcrs? {
      assert forall i :: 0 <= i < |b.policy.pcrs| ==> b.policy.pcrs[i] in b.policy.pcrs;
    }
    BlobRoundTrip(b);
    hide ValidBlob;
    Magics();
    hide Ascii;
    assert Header(b.policy) == Ascii("R503TPM") + (if b.policy == NoPolicy then [3] else if b.policy.pcrs == [7] then [1]
                                                   else [2, |b.policy.pcrs|] + b.policy.pcrs);
  }

  lemma Magics()
    ensures MAGIC_V1 == Ascii("R503TPM") + [1] && MAGIC_V2 == Ascii("R503TPM") + [2] && MAGIC_V3 == Ascii("R503TPM") + [3]
  {
  }
}
