/** The modules put together: from a CSV file over the committed batch to the contract. */
module BulkPipeline {
  import opened BatchClaims
  import opened ByteCodec
  import opened CsvValidation
  import opened MerkleBatch
  import opened MerkleTree
  import opened Schedules

  lemma {:induction false} NoMoreRowsThanLines(outcomes: seq<Outcome>)
    ensures |AcceptedRows(outcomes)| <= |outcomes|
  {
    if outcomes != [] {
      NoMoreRowsThanLines(outcomes[..|outcomes| - 1]);
    }
  }

  /**
   * Every row that the validator accepts from a file within the row limit can be claimed with the
   * proof that the batch file gives it, provided its numbers fit the contract's types: exactly while
   * the batch is open and the leaf unclaimed, and only if the amount reaches one stroop. The validator
   * does not ask for that last condition.
   */
  lemma AcceptedRowIsClaimable(env: CsvValidation.Env, names: seq<string>, lines: seq<string>,
                               h: Hash, decodeKey: KeyDecoder, batch: Batch, i: nat, st: BatchState, ledger: int)
    requires |lines| <= MAX_BULK_CREATE_ROWS
    requires i < |AcceptedRows(Outcomes(env, names, lines))|
    requires AllDecodable(decodeKey, AcceptedRows(Outcomes(env, names, lines)))
    requires Commits(h, decodeKey, AcceptedRows(Outcomes(env, names, lines)), batch)
    requires InRange(RowsTerms(decodeKey, AcceptedRows(Outcomes(env, names, lines)))[i])
    requires st.root == batch.root && st.expiryLedger == batch.expiryLedger
    requires 0 <= st.remaining && InI128(st.remaining)
    ensures var rows := AcceptedRows(Outcomes(env, names, lines));
            Claim(h, st, Call(ledger, RowsTerms(decodeKey, rows)[i], batch.entries[i].proof)).Ok? <==>
              && ledger < batch.expiryLedger
              && rows[i].amountStroops > 0
              && batch.entries[i].leaf !in st.claimed
  {
    var rows := AcceptedRows(Outcomes(env, names, lines));
    NoMoreRowsThanLines(Outcomes(env, names, lines));
    FileConserved(env, names, lines);
    assert rows[i] in rows;
    RowIsClaimable(h, decodeKey, rows, batch, i, st, ledger);
  }

  /**
   * The deposit the batch file asks for is the one for which claims are solvent, and it is within
   * the balance whenever the rows are the fundable part of what the user uploaded.
   */
  lemma FundableDepositCovers(decodeKey: KeyDecoder, rows: seq<ValidatedRow>, available: int)
    requires NonNegative(rows) && AllDecodable(decodeKey, rows)
    ensures var fundable := FundableOf(rows, available);
            && AllDecodable(decodeKey, fundable)
            && (fundable != [] ==> TotalAmount(RowsTerms(decodeKey, fundable)) <= available)
  {
    SplitIsLongestPrefix(rows, available);
    var fundable := FundableOf(rows, available);
    assert fundable == rows[..|fundable|];
    TotalStroopsIsTotalAmount(decodeKey, fundable);
  }
}
