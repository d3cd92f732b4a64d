/**
 * The validation loop of `main` in Health_system.py: every extracted record is
 * validated against the same `today`; a valid one contributes its normalised record to
 * the valid list, an invalid one its patient ID and error list to the error list, both
 * in input order, and the three counts are taken from the lists.
 */
module BatchProcessor {
  import opened Wrappers
  import opened Calendar
  import opened RecordValidator

  /** One entry of the error report: the stripped patient ID and the record's messages. */
  datatype Rejection = Rejection(patientId: string, errors: seq<string>)

  /** What the loop learns about one record: `validate_record`'s triple and the ID it reads. */
  datatype Outcome = Outcome(isValid: bool, errors: seq<string>, normalized: Option<PatientRecord>, patientId: string)

  function OutcomeOf(raw: RawRecord, today: Date): Outcome
    requires ValidDate(today) && ToOrdinal(today) > SixMonthsDays
  {
    Outcome(RecordErrors(raw, today) == [], RecordErrors(raw, today), Normalized(FieldsOf(raw), today), PatientIdOf(raw))
  }

  /** The outcome of every record of the batch, in input order. */
  function Outcomes(raws: seq<RawRecord>, today: Date): (outs: seq<Outcome>)
    requires ValidDate(today) && ToOrdinal(today) > SixMonthsDays
    ensures |outs| == |raws|
    ensures forall k :: 0 <= k < |raws| ==> outs[k] == OutcomeOf(raws[k], today)
  {
    if raws == [] then [] else Outcomes(raws[..|raws| - 1], today) + [OutcomeOf(raws[|raws| - 1], today)]
  }

  /** One more record adds its own outcome at the end. */
  lemma {:induction false} OutcomesSnoc(raws: seq<RawRecord>, raw: RawRecord, today: Date)
    requires ValidDate(today) && ToOrdinal(today) > SixMonthsDays
    ensures Outcomes(raws + [raw], today) == Outcomes(raws, today) + [OutcomeOf(raw, today)]
  {
    assert (raws + [raw])[..|raws|] == raws;
  }

  /** An outcome as `validate_record` produces it: valid exactly without messages, and then normalised. */
  predicate Consistent(o: Outcome)
  {
    (o.isValid <==> o.errors == []) && (o.isValid ==> o.normalized.Some?)
  }

  /** The records `main` appends to `valid_records`, in order. */
  function ValidRecords(outs: seq<Outcome>): seq<PatientRecord>
  {
    if outs == [] then []
    else
      var o := outs[|outs| - 1];
      ValidRecords(outs[..|outs| - 1]) + if o.isValid && o.normalized.Some? then [o.normalized.value] else []
  }

  /** The entries `main` appends to `error_info`, in order. */
  function ErrorInfo(outs: seq<Outcome>): seq<Rejection>
  {
    if outs == [] then []
    else
      var o := outs[|outs| - 1];
      ErrorInfo(outs[..|outs| - 1]) + if o.isValid && o.normalized.Some? then [] else [Rejection(o.patientId, o.errors)]
  }

  /** Every validated record is consistent. */
  lemma {:induction false} OutcomeConsistent(raw: RawRecord, today: Date)
    requires ValidDate(today) && ToOrdinal(today) > SixMonthsDays
    ensures Consistent(OutcomeOf(raw, today))
    ensures OutcomeOf(raw, today).isValid <==> Normalized(FieldsOf(raw), today).Some?
  {
  }

  /**
   * The body of the loop for record i: validate it, read its ID again, and append to
   * the one list its outcome selects.
   */
  method ProcessRecord(raws: seq<RawRecord>, i: nat, today: Date,
                       validRecords: seq<PatientRecord>, errorInfo: seq<Rejection>, ghost outs: seq<Outcome>)
    returns (validOut: seq<PatientRecord>, errorOut: seq<Rejection>, ghost outsOut: seq<Outcome>)
    requires ValidDate(today) && ToOrdinal(today) > SixMonthsDays
    requires i < |raws| && outs == Outcomes(raws[..i], today)
    requires validRecords == ValidRecords(outs) && errorInfo == ErrorInfo(outs)
    ensures outsOut == Outcomes(raws[..i + 1], today)
    ensures validOut == ValidRecords(outsOut) && errorOut == ErrorInfo(outsOut)
  {
    var o := ValidateOne(raws[i], today);
    outsOut := outs + [o];
    NextOutcomes(raws, i, today, o);
    AppendOutcome(outs, o);
    validOut, errorOut := validRecords, errorInfo;
    if o.isValid && o.normalized.Some? {
      validOut := validOut + [o.normalized.value];
    } else {
      errorOut := errorOut + [Rejection(o.patientId, o.errors)];
    }
  }

  /** `validate_record(raw, today)` and the ID the loop reads from the same record. */
  method ValidateOne(raw: RawRecord, today: Date) returns (o: Outcome)
    requires ValidDate(today) && ToOrdinal(today) > SixMonthsDays
    ensures o == OutcomeOf(raw, today)
  {
    var isValid, errors, normalized := ValidateRecord(raw, today);
    var patientId := PatientIdOf(raw);
    o := Outcome(isValid, errors, normalized, patientId);
  }

  /** The outcomes of the first i + 1 records: those of the first i, then record i's. */
  lemma {:induction false} NextOutcomes(raws: seq<RawRecord>, i: nat, today: Date, o: Outcome)
    requires ValidDate(today) && ToOrdinal(today) > SixMonthsDays
    requires i < |raws| && o == OutcomeOf(raws[i], today)
    ensures Outcomes(raws[..i + 1], today) == Outcomes(raws[..i], today) + [o]
  {
    assert raws[..i + 1] == raws[..i] + [raws[i]];
    OutcomesSnoc(raws[..i], raws[i], today);
  }

  /**
   * The loop of `main`: each record is validated once; `total_count`, `valid_count` and
   * `invalid_count` are the lengths of the input and of the two lists it builds.
   */
  method ProcessBatch(raws: seq<RawRecord>, today: Date)
    returns (validRecords: seq<PatientRecord>, errorInfo: seq<Rejection>,
             totalCount: nat, validCount: nat, invalidCount: nat)
    requires ValidDate(today) && ToOrdinal(today) > SixMonthsDays
    ensures validRecords == ValidRecords(Outcomes(raws, today))
    ensures errorInfo == ErrorInfo(Outcomes(raws, today))
    ensures totalCount == |raws| && validCount == |validRecords| && invalidCount == |errorInfo|
    ensures validCount + invalidCount == totalCount
  {
    ghost var outs: seq<Outcome> := [];
    validRecords, errorInfo := [], [];
    var i := 0;
    assert raws[..i] == [];
    while i < |raws|
      invariant 0 <= i <= |raws|
      invariant outs == Outcomes(raws[..i], today)
      invariant validRecords == ValidRecords(outs) && errorInfo == ErrorInfo(outs)
    {
      validRecords, errorInfo, outs := ProcessRecord(raws, i, today, validRecords, errorInfo, outs);
      i := i + 1;
    }
    assert raws[..i] == raws;
    totalCount, validCount, invalidCount := |raws|, |validRecords|, |errorInfo|;
    BatchPartition(outs);
  }

  /** One more outcome adds to exactly one of the two lists, at its end. */
  lemma {:induction false} AppendOutcome(outs: seq<Outcome>, o: Outcome)
    ensures o.isValid && o.normalized.Some? ==>
      ValidRecords(outs + [o]) == ValidRecords(outs) + [o.normalized.value] && ErrorInfo(outs + [o]) == ErrorInfo(outs)
    ensures !(o.isValid && o.normalized.Some?) ==>
      ValidRecords(outs + [o]) == ValidRecords(outs) && ErrorInfo(outs + [o]) == ErrorInfo(outs) + [Rejection(o.patientId, o.errors)]
  {
    assert (outs + [o])[..|outs|] == outs;
  }

  /** Every record lands in exactly one of the two lists. */
  lemma {:induction false} BatchPartition(outs: seq<Outcome>)
    ensures |ValidRecords(outs)| + |ErrorInfo(outs)| == |outs|
    decreases |outs|
  {
    if outs != [] {
      BatchPartition(outs[..|outs| - 1]);
    }
  }

  /** Processing two batches one after the other gives the lists of the joined batch. */
  lemma {:induction false} BatchConcat(xs: seq<Outcome>, ys: seq<Outcome>)
    ensures ValidRecords(xs + ys) == ValidRecords(xs) + ValidRecords(ys)
    ensures ErrorInfo(xs + ys) == ErrorInfo(xs) + ErrorInfo(ys)
    decreases |ys|
  {
    if ys != [] {
      var init := ys[..|ys| - 1];
      assert (xs + ys)[..|xs + ys| - 1] == xs + init;
      assert (xs + ys)[|xs + ys| - 1] == ys[|ys| - 1];
      BatchConcat(xs, init);
    } else {
      assert xs + ys == xs;
    }
  }

  /** A batch of one consistent outcome: accepted exactly when it has no messages. */
  lemma {:induction false} SingleOutcome(o: Outcome)
    requires Consistent(o)
    ensures o.errors == [] ==> ValidRecords([o]) == [o.normalized.value] && ErrorInfo([o]) == []
    ensures o.errors != [] ==> ValidRecords([o]) == [] && ErrorInfo([o]) == [Rejection(o.patientId, o.errors)]
  {
    assert [o][..0] == [];
  }

  /** Every entry of the error report carries at least one message. */
  lemma {:induction false} RejectionsHaveErrors(outs: seq<Outcome>)
    requires forall k :: 0 <= k < |outs| ==> Consistent(outs[k])
    ensures forall k :: 0 <= k < |ErrorInfo(outs)| ==> ErrorInfo(outs)[k].errors != []
    decreases |outs|
  {
    if outs != [] {
      RejectionsHaveErrors(outs[..|outs| - 1]);
    }
  }

  /** Every outcome of a real batch is consistent. */
  lemma {:induction false} OutcomesConsistent(raws: seq<RawRecord>, today: Date)
    requires ValidDate(today) && ToOrdinal(today) > SixMonthsDays
    ensures forall k :: 0 <= k < |raws| ==> Consistent(Outcomes(raws, today)[k])
    decreases |raws|
  {
    if raws != [] {
      OutcomesConsistent(raws[..|raws| - 1], today);
      OutcomeConsistent(raws[|raws| - 1], today);
    }
  }

  /** For a real batch, every entry of the error report carries at least one message. */
  lemma {:induction false} BatchRejectionsHaveErrors(raws: seq<RawRecord>, today: Date)
    requires ValidDate(today) && ToOrdinal(today) > SixMonthsDays
    ensures forall k :: 0 <= k < |ErrorInfo(Outcomes(raws, today))| ==> ErrorInfo(Outcomes(raws, today))[k].errors != []
  {
    OutcomesConsistent(raws, today);
    RejectionsHaveErrors(Outcomes(raws, today));
  }
}
