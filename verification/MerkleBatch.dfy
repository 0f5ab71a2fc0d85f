/**
 * A batch of vesting slots committed under one Merkle root, as scripts/merkle-batch.ts builds it: the
 * leaf encoding, and the root, proofs and deposit total of a list of rows.
 */
module MerkleBatch {
  import opened ByteCodec
  import opened MerkleTree
  import opened Schedules
  import opened Wrappers

  // ----- Leaf encoding -----

  /** A slot with its beneficiary already decoded to the raw 32-byte key. */
  datatype Terms = Terms(
    key: Digest,
    amount: int,
    duration: int,
    cliff: int,
    start: int,
    kind: Kind,
    revocable: bool)

  function KindByte(kind: Kind): byte {
    match kind
    case Linear => 0
    case Cliff => 1
    case LinearWithCliff => 2
    case Graded => 3
  }

  function FlagByte(flag: bool): byte {
    if flag then 1 else 0
  }

  /** The order in which the fields are concatenated. */
  function Layout(key: seq<byte>, amount: seq<byte>, duration: seq<byte>, cliff: seq<byte>,
                  start: seq<byte>, kind: byte, flag: byte): seq<byte>
  {
    [LEAF_DOMAIN] + key + amount + duration + cliff + start + [kind] + [flag]
  }

  /** Fixed-width concatenation can be taken apart again. */
  lemma LayoutFields(key: seq<byte>, amount: seq<byte>, duration: seq<byte>, cliff: seq<byte>,
                     start: seq<byte>, kind: byte, flag: byte)
    requires |key| == 32 && |amount| == 16 && |duration| == |cliff| == |start| == 8
    ensures var p := Layout(key, amount, duration, cliff, start, kind, flag);
            && |p| == 75 && p[0] == LEAF_DOMAIN
            && p[1..33] == key && p[33..49] == amount && p[49..57] == duration
            && p[57..65] == cliff && p[65..73] == start && p[73] == kind && p[74] == flag
  {
  }

  function LeafPreimage(t: Terms): seq<byte> {
    Layout(t.key, TwosComplementBE(t.amount, 16), BytesBE(t.duration, 8), BytesBE(t.cliff, 8),
           BytesBE(t.start, 8), KindByte(t.kind), FlagByte(t.revocable))
  }

  /** The preimage is 75 bytes long and starts with the leaf domain byte. */
  lemma LeafPreimageShape(t: Terms)
    ensures |LeafPreimage(t)| == 75 && IsLeafPreimage(LeafPreimage(t))
  {
    LayoutFields(t.key, TwosComplementBE(t.amount, 16), BytesBE(t.duration, 8), BytesBE(t.cliff, 8),
                 BytesBE(t.start, 8), KindByte(t.kind), FlagByte(t.revocable));
  }

  /** The contract's argument types. */
  predicate InRange(t: Terms) {
    InI128(t.amount) && InU64(t.duration) && InU64(t.cliff) && InU64(t.start)
  }

  /** The in-range terms that the contract reads out of an encoding of `t`. */
  function Canonical(t: Terms): Terms {
    t.(amount := SignedValueBE(TwosComplementBE(t.amount, 16)),
       duration := t.duration % Pow256(8),
       cliff := t.cliff % Pow256(8),
       start := t.start % Pow256(8))
  }

  lemma CanonicalFacts(t: Terms)
    ensures InRange(Canonical(t))
    ensures InRange(t) <==> Canonical(t) == t
    ensures LeafPreimage(Canonical(t)) == LeafPreimage(t)
  {
    SignedRoundTrip(t.amount, 16);
    SignedEncodeDecode(TwosComplementBE(t.amount, 16));
    DecodeEncode(t.duration, 8);
    DecodeEncode(t.cliff, 8);
    DecodeEncode(t.start, 8);
    U64RoundTrip(t.duration);
    U64RoundTrip(t.cliff);
    U64RoundTrip(t.start);
    BytesBEOfMod(t.duration, 8);
    BytesBEOfMod(t.cliff, 8);
    BytesBEOfMod(t.start, 8);
  }

  lemma LeafPreimageFields(t: Terms)
    ensures var p := LeafPreimage(t);
            && |p| == 75
            && p[1..33] == t.key
            && p[33..49] == TwosComplementBE(t.amount, 16)
            && p[49..57] == BytesBE(t.duration, 8)
            && p[57..65] == BytesBE(t.cliff, 8)
            && p[65..73] == BytesBE(t.start, 8)
            && p[73] == KindByte(t.kind)
            && p[74] == FlagByte(t.revocable)
  {
    LayoutFields(t.key, TwosComplementBE(t.amount, 16), BytesBE(t.duration, 8), BytesBE(t.cliff, 8),
                 BytesBE(t.start, 8), KindByte(t.kind), FlagByte(t.revocable));
  }

  /**
   * For arbitrary integers two slots have the same preimage exactly when the contract would
   * read the same terms from both; for in-range slots that is equality of every field.
   */
  lemma LeafPreimageInjective(s: Terms, t: Terms)
    ensures LeafPreimage(s) == LeafPreimage(t) <==> Canonical(s) == Canonical(t)
    ensures InRange(s) && InRange(t) && LeafPreimage(s) == LeafPreimage(t) ==> s == t
  {
    CanonicalFacts(s);
    CanonicalFacts(t);
    if LeafPreimage(s) == LeafPreimage(t) {
      LeafPreimageFields(s);
      LeafPreimageFields(t);
      BytesBEInjective(s.duration, t.duration, 8);
      BytesBEInjective(s.cliff, t.cliff, 8);
      BytesBEInjective(s.start, t.start, 8);
    }
  }

  // ----- Building a batch from rows -----

  const SECONDS_PER_DAY := 86400

  /** StrKey decoding of a G-address; `None` where the library throws. */
  type KeyDecoder = string -> Option<Digest>

  datatype Slot = Slot(
    beneficiary: string,
    totalAmountStroops: int,
    durationSecs: int,
    cliffSecs: int,
    startTime: int,
    kind: Kind,
    revocable: bool)

  function RowSlot(row: ValidatedRow): Slot {
    Slot(row.beneficiary, row.amountStroops, row.durationDays * SECONDS_PER_DAY,
         row.cliffDays * SECONDS_PER_DAY, row.startTime, row.kind, row.revocable)
  }

  function SlotTerms(decodeKey: KeyDecoder, slot: Slot): Terms
    requires decodeKey(slot.beneficiary).Some?
  {
    Terms(decodeKey(slot.beneficiary).value, slot.totalAmountStroops, slot.durationSecs,
          slot.cliffSecs, slot.startTime, slot.kind, slot.revocable)
  }

  /** `leafHash`: the digest of the slot's preimage, or the decoder's failure. */
  method LeafHash(h: Hash, decodeKey: KeyDecoder, slot: Slot) returns (r: Option<Digest>)
    ensures r.None? <==> decodeKey(slot.beneficiary).None?
    ensures r.Some? ==> r.value == h(LeafPreimage(SlotTerms(decodeKey, slot)))
  {
    var addr := decodeKey(slot.beneficiary);
    if addr.None? {
      return None;
    }
    var amount := I128ToBytesBE(slot.totalAmountStroops);
    var duration := U64ToBytesBE(slot.durationSecs);
    var cliff := U64ToBytesBE(slot.cliffSecs);
    var start := U64ToBytesBE(slot.startTime);
    r := Some(h(Layout(addr.value, amount, duration, cliff, start,
                       KindByte(slot.kind), FlagByte(slot.revocable))));
  }

  predicate AllDecodable(decodeKey: KeyDecoder, rows: seq<ValidatedRow>) {
    forall i :: 0 <= i < |rows| ==> decodeKey(rows[i].beneficiary).Some?
  }

  function RowsTerms(decodeKey: KeyDecoder, rows: seq<ValidatedRow>): (terms: seq<Terms>)
    requires AllDecodable(decodeKey, rows)
    ensures |terms| == |rows|
  {
    seq(|rows|, i requires 0 <= i < |rows| => SlotTerms(decodeKey, RowSlot(rows[i])))
  }

  function Preimages(terms: seq<Terms>): (pres: seq<seq<byte>>)
    ensures |pres| == |terms|
  {
    seq(|terms|, i requires 0 <= i < |terms| => LeafPreimage(terms[i]))
  }

  datatype Entry = Entry(rowIndex: nat, slot: Slot, leaf: Digest, proof: seq<Digest>)

  datatype Batch = Batch(root: Digest, token: string, totalStroops: int, expiryLedger: int, entries: seq<Entry>)

  datatype BatchError = NoRows | MixedTokens(rowIndices: seq<nat>) | BadAddress

  /** The rows whose token differs from the first row's. */
  function Mismatched(rows: seq<ValidatedRow>, token: string): (r: seq<nat>)
    ensures r == [] <==> forall i :: 0 <= i < |rows| ==> rows[i].token == token
  {
    if rows == [] then []
    else
      var rest := Mismatched(rows[1..], token);
      assert forall i :: 1 <= i < |rows| ==> rows[i] == rows[1..][i - 1];
      if rows[0].token != token then [rows[0].rowIndex] + rest else rest
  }

  /** The error names exactly the rows with another token. */
  lemma {:induction false} MismatchedExactly(rows: seq<ValidatedRow>, token: string, k: nat)
    ensures k in Mismatched(rows, token) <==>
              exists i :: 0 <= i < |rows| && rows[i].token != token && rows[i].rowIndex == k
  {
    if rows != [] {
      MismatchedExactly(rows[1..], token, k);
      assert forall i :: 1 <= i < |rows| ==> rows[i] == rows[1..][i - 1];
      assert forall i :: 0 <= i < |rows| - 1 ==> rows[1..][i] == rows[i + 1];
    }
  }

  /** What a finished batch promises about the rows it was built from. */
  ghost predicate Commits(h: Hash, decodeKey: KeyDecoder, rows: seq<ValidatedRow>, batch: Batch)
    requires AllDecodable(decodeKey, rows) && rows != []
  {
    && batch.root == Root(h, Leaves(h, Preimages(RowsTerms(decodeKey, rows))))
    && batch.totalStroops == TotalStroops(rows)
    && (forall i :: 0 <= i < |rows| ==> rows[i].token == batch.token)
    && |batch.entries| == |rows|
    && forall i :: 0 <= i < |rows| ==>
         var e := batch.entries[i];
         && e.rowIndex == rows[i].rowIndex
         && e.slot == RowSlot(rows[i])
         && e.leaf == h(LeafPreimage(RowsTerms(decodeKey, rows)[i]))
         && Fold(h, e.leaf, e.proof) == batch.root
         && |e.proof| <= CeilLog2(|rows|)
  }

  /** `slots.map(leafHash)`: all leaves, or the first decoding failure. */
  method HashRows(h: Hash, decodeKey: KeyDecoder, rows: seq<ValidatedRow>) returns (r: Option<seq<Digest>>)
    ensures r.Some? <==> AllDecodable(decodeKey, rows)
    ensures r.Some? ==> r.value == Leaves(h, Preimages(RowsTerms(decodeKey, rows)))
  {
    var leaves: seq<Digest> := [];
    for i := 0 to |rows|
      invariant |leaves| == i
      invariant forall j :: 0 <= j < i ==>
                  && decodeKey(rows[j].beneficiary).Some?
                  && leaves[j] == h(LeafPreimage(SlotTerms(decodeKey, RowSlot(rows[j]))))
    {
      var leaf := LeafHash(h, decodeKey, RowSlot(rows[i]));
      if leaf.None? {
        return None;
      }
      leaves := leaves + [leaf.value];
    }
    assert leaves == Leaves(h, Preimages(RowsTerms(decodeKey, rows)));
    r := Some(leaves);
  }

  method BuildBatchFromRows(h: Hash, decodeKey: KeyDecoder, rows: seq<ValidatedRow>, expiryLedger: int)
      returns (r: Result<Batch, BatchError>)
    ensures r.Ok? <==> rows != [] && AllDecodable(decodeKey, rows)
                       && forall i :: 0 <= i < |rows| ==> rows[i].token == rows[0].token
    ensures r.Ok? ==> Commits(h, decodeKey, rows, r.value) && r.value.expiryLedger == expiryLedger
    ensures rows == [] <==> r == Err(NoRows)
    ensures r.Err? && r.error.MixedTokens? ==>
              r.error.rowIndices == Mismatched(rows, rows[0].token) && r.error.rowIndices != []
  {
    if rows == [] {
      return Err(NoRows);
    }
    var token := rows[0].token;
    var mismatched := Mismatched(rows, token);
    if mismatched != [] {
      return Err(MixedTokens(mismatched));
    }
    var leaves := HashRows(h, decodeKey, rows);
    if leaves.None? {
      return Err(BadAddress);
    }
    var tree := BuildMerkleTree(h, leaves.value);
    forall i | 0 <= i < |rows|
      ensures |tree.value.proofs[i]| <= CeilLog2(|rows|)
    {
      ProofDepth(h, leaves.value, i);
    }
    var entries := seq(|rows|, i requires 0 <= i < |rows| =>
      Entry(rows[i].rowIndex, RowSlot(rows[i]), leaves.value[i], tree.value.proofs[i]));
    r := Ok(Batch(tree.value.root, token, TotalStroops(rows), expiryLedger, entries));
  }

  /** The number by which the contract knows a kind. */
  function KindNumber(kind: Kind): int {
    match kind
    case Linear => 0
    case Cliff => 1
    case LinearWithCliff => 2
    case Graded => 3
  }

  /**
   * What the contract reads, byte by byte, from the leaf of a row whose numbers fit: the domain byte 0x00, the
   * beneficiary's key, the amount in stroops, duration and cliff in seconds, the start, the kind and the flag.
   */
  lemma LeafOfRow(decodeKey: KeyDecoder, row: ValidatedRow, p: seq<byte>)
    requires decodeKey(row.beneficiary).Some? && p == LeafPreimage(SlotTerms(decodeKey, RowSlot(row)))
    requires InRange(SlotTerms(decodeKey, RowSlot(row)))
    ensures |p| == 75 && p[0] == 0x00
    ensures Some(p[1..33]) == decodeKey(row.beneficiary)
    ensures SignedValueBE(p[33..49]) == row.amountStroops
    ensures ValueBE(p[49..57]) == row.durationDays * 24 * 60 * 60
    ensures ValueBE(p[57..65]) == row.cliffDays * 24 * 60 * 60
    ensures ValueBE(p[65..73]) == row.startTime
    ensures p[73] == KindNumber(row.kind) && p[74] == if row.revocable then 1 else 0
  {
    var t := SlotTerms(decodeKey, RowSlot(row));
    LeafPreimageFields(t);
    SignedRoundTrip(t.amount, 16);
    DecodeEncode(t.duration, 8);
    DecodeEncode(t.cliff, 8);
    DecodeEncode(t.start, 8);
    U64RoundTrip(t.duration);
    U64RoundTrip(t.cliff);
    U64RoundTrip(t.start);
  }
}
