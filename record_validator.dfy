/**
 * `validate_record` of Health_system.py: the fields of one raw record are looked up
 * and cleaned, five groups of rules each add their messages to one list in a fixed
 * order, and the record is valid exactly when the list stays empty, in which case it
 * is normalised into a PatientRecord with ISO dates.
 */
module RecordValidator {
  import opened Wrappers
  import opened Text
  import opened Calendar
  import opened DateParser
  import opened Luhn

  /** A record as extracted: field label to raw text. */
  type RawRecord = map<string, string>

  /** The normalised record written to the valid-records output. */
  datatype PatientRecord = PatientRecord(
    PatientID: string,
    HealthCardNumber: string,
    VersionCode: string,
    DateOfBirth: string,
    ServiceDate: string)

  const PatientIdLabel := "Patient ID"
  const PatientIdAltLabel := "PatientID"
  const HealthCardLabel := "Health Card Number"
  const VersionCodeLabel := "Version Code"
  const DateOfBirthLabel := "Date of Birth"
  const ServiceDateLabel := "Service Date"

  const DobFieldName := "Date of birth"
  const ServiceFieldName := "Service date"

  const CardMissing := "Health card number is missing"
  const CardNotDigits := "Health card number must contain only digits"
  const CardLength := "Health card number must be exactly 10 digits"
  const CardLuhn := "Health card number failed MOD 10 (Luhn) validation"
  const VersionMissing := "Version code is missing"
  const VersionLength := "Version code must be exactly 2 characters"
  const VersionNotLetters := "Version code must contain only letters A-Z"
  const VersionNotUpper := "Version code must be uppercase letters (A-Z)"
  const DobFuture := "Date of birth is in the future"
  const AgeNegative := "Patient age cannot be negative"
  const AgeTooHigh := "Patient age must be less than 150 years"
  const ServiceFuture := "Service date is in the future"
  const ServiceBeforeDob := "Service date is before date of birth"
  const ServiceTooOld := "Service date is more than 6 months in the past"
  const PatientIdMissing := "Patient ID is missing"

  /** Ages of 150 and over are refused. */
  const MaxAge := 150
  /** Six months, taken as 183 days. */
  const SixMonthsDays := 183

  /** The messages are told apart by their length and first letter. */
  lemma MessageShapes()
    ensures |CardMissing| == 29 && CardMissing[0] == 'H'
    ensures |CardNotDigits| == 43 && CardNotDigits[0] == 'H'
    ensures |CardLength| == 44 && CardLength[0] == 'H'
    ensures |CardLuhn| == 50 && CardLuhn[0] == 'H'
    ensures |VersionMissing| == 23 && VersionMissing[0] == 'V'
    ensures |VersionLength| == 41 && VersionLength[0] == 'V'
    ensures |VersionNotLetters| == 42 && VersionNotLetters[0] == 'V'
    ensures |VersionNotUpper| == 44 && VersionNotUpper[0] == 'V'
    ensures |DobFuture| == 30 && DobFuture[0] == 'D'
    ensures |AgeNegative| == 30 && AgeNegative[0] == 'P'
    ensures |AgeTooHigh| == 39 && AgeTooHigh[0] == 'P'
    ensures |ServiceFuture| == 29 && ServiceFuture[0] == 'S'
    ensures |ServiceBeforeDob| == 36 && ServiceBeforeDob[0] == 'S'
    ensures |ServiceTooOld| == 46 && ServiceTooOld[0] == 'S'
    ensures |PatientIdMissing| == 21 && PatientIdMissing[0] == 'P'
    ensures |DobFieldName + EmptySuffix| == 22 && |DobFieldName + NotValidDateSuffix| == 91
    ensures |ServiceFieldName + EmptySuffix| == 21 && (ServiceFieldName + EmptySuffix)[0] == 'S'
    ensures |ServiceFieldName + NotValidDateSuffix| == 90
  {
  }

  /** `raw.get(label)` where a missing label reads as the empty, falsy string. */
  function Lookup(raw: RawRecord, key: string): string
  {
    if key in raw then raw[key] else ""
  }

  /** `(raw.get("Patient ID") or raw.get("PatientID") or "").strip()`. */
  function PatientIdOf(raw: RawRecord): (id: string)
    ensures Lookup(raw, PatientIdLabel) != "" ==> id == Strip(Lookup(raw, PatientIdLabel))
    ensures Lookup(raw, PatientIdLabel) == "" ==> id == Strip(Lookup(raw, PatientIdAltLabel))
  {
    var primary := Lookup(raw, PatientIdLabel);
    Strip(if primary != "" then primary else Lookup(raw, PatientIdAltLabel))
  }

  /** `(raw.get("Health Card Number") or "").replace(" ", "").strip()`. */
  function HealthCardOf(raw: RawRecord): string
  {
    Strip(RemoveSpaces(Lookup(raw, HealthCardLabel)))
  }

  function VersionCodeOf(raw: RawRecord): string
  {
    Strip(Lookup(raw, VersionCodeLabel))
  }

  function DobTextOf(raw: RawRecord): string
  {
    Strip(Lookup(raw, DateOfBirthLabel))
  }

  function ServiceTextOf(raw: RawRecord): string
  {
    Strip(Lookup(raw, ServiceDateLabel))
  }

  /** Rule 1: the health-card cascade; the Luhn check is reached only by ten digits. */
  function HealthCardErrors(card: string): seq<string>
  {
    if card == "" then [CardMissing]
    else if !IsDigitString(card) then [CardNotDigits]
    else if |card| != 10 then [CardLength]
    else if !LuhnValid(card) then [CardLuhn]
    else []
  }

  /** Rule 1 adds at most one message, each exactly in its own case. */
  lemma {:induction false} HealthCardRule(card: string)
    ensures var errs := HealthCardErrors(card);
      && |errs| <= 1
      && (errs == [] <==> |card| == 10 && IsDigitString(card) && LuhnValid(card))
      && (errs == [CardMissing] <==> card == "")
      && (errs == [CardNotDigits] <==> card != "" && !IsDigitString(card))
      && (errs == [CardLength] <==> IsDigitString(card) && |card| != 10)
      && (errs == [CardLuhn] <==> IsDigitString(card) && |card| == 10 && !LuhnValid(card))
  {
    MessageShapes();
  }

  /** Rule 2: the version-code cascade. */
  function VersionCodeErrors(code: string): seq<string>
  {
    if code == "" then [VersionMissing]
    else if |code| != 2 then [VersionLength]
    else if !IsAlphaString(code) then [VersionNotLetters]
    else if !IsUpperString(code) then [VersionNotUpper]
    else []
  }

  /** Rule 2 adds at most one message; the code passes exactly when it is two capitals A-Z. */
  lemma {:induction false} VersionCodeRule(code: string)
    ensures var errs := VersionCodeErrors(code);
      && |errs| <= 1
      && (errs == [] <==> |code| == 2 && IsUpperLetter(code[0]) && IsUpperLetter(code[1]))
      && (errs == [VersionMissing] <==> code == "")
      && (errs == [VersionLength] <==> code != "" && |code| != 2)
      && (errs == [VersionNotLetters] <==> |code| == 2 && !IsAlphaString(code))
      && (errs == [VersionNotUpper] <==> |code| == 2 && IsAlphaString(code) && !IsUpperString(code))
  {
    MessageShapes();
  }

  /** Rule 3 once the birth date parsed. */
  function DobRuleErrors(dob: Date, today: Date): seq<string>
  {
    if Before(today, dob) then [DobFuture]
    else
      var age := AgeInYears(dob, today);
      (if age < 0 then [AgeNegative] else []) + (if age >= MaxAge then [AgeTooHigh] else [])
  }

  /**
   * A future birth date gives one message; otherwise the age is never negative, so the
   * negative-age message never appears and only the 150-year limit can add one.
   */
  lemma {:induction false} DobRule(dob: Date, today: Date)
    ensures var errs := DobRuleErrors(dob, today);
      && |errs| <= 1
      && AgeNegative !in errs
      && (errs == [DobFuture] <==> Before(today, dob))
      && (errs == [AgeTooHigh] <==> !Before(today, dob) && AgeInYears(dob, today) >= MaxAge)
      && (errs == [] <==> !Before(today, dob) && AgeInYears(dob, today) < MaxAge)
  {
    MessageShapes();
    AgeNegativeIffFuture(dob, today);
    if !Before(today, dob) {
      var age := AgeInYears(dob, today);
      assert DobRuleErrors(dob, today) == (if age >= MaxAge then [AgeTooHigh] else []);
      assert [AgeTooHigh] != [DobFuture] by { assert [AgeTooHigh][0] != [DobFuture][0]; }
    }
  }

  /** Rule 4 once the service date parsed: three independent checks, in order. */
  function ServiceRuleErrors(service: Date, dob: Option<Date>, today: Date): seq<string>
    requires ValidDate(today) && ToOrdinal(today) > SixMonthsDays
  {
    var sixMonthsAgo := SubtractDays(today, SixMonthsDays);
    ServiceFlags(Before(today, service), dob.Some? && Before(service, dob.value), Before(service, sixMonthsAgo))
  }

  /** The service-date messages for the three conditions, in the order they are checked. */
  function ServiceFlags(future: bool, beforeDob: bool, tooOld: bool): seq<string>
  {
    (if future then [ServiceFuture] else [])
    + (if beforeDob then [ServiceBeforeDob] else [])
    + (if tooOld then [ServiceTooOld] else [])
  }

  /**
   * Each service-date message appears exactly when its condition holds: after today;
   * before a birth date that parsed; an ordinal below today's minus 183, so a date
   * exactly 183 days back is still accepted. A date cannot be both in the future and
   * too old, so at most two messages appear.
   */
  lemma {:induction false} ServiceRule(service: Date, dob: Option<Date>, today: Date)
    requires ValidDate(service) && ValidDate(today) && ToOrdinal(today) > SixMonthsDays
    ensures var errs := ServiceRuleErrors(service, dob, today);
      && |errs| <= 2
      && (ServiceFuture in errs <==> Before(today, service))
      && (ServiceBeforeDob in errs <==> dob.Some? && Before(service, dob.value))
      && (ServiceTooOld in errs <==> ToOrdinal(service) < ToOrdinal(today) - SixMonthsDays)
      && (errs == [] <==>
            !Before(today, service) && !(dob.Some? && Before(service, dob.value))
            && ToOrdinal(service) >= ToOrdinal(today) - SixMonthsDays)
  {
    var sixMonthsAgo := SubtractDays(today, SixMonthsDays);
    OrdinalOrder(service, sixMonthsAgo);
    OrdinalOrder(today, service);
    MessageShapes();
    FlaggedMembers(Before(today, service), ServiceFuture,
                   dob.Some? && Before(service, dob.value), ServiceBeforeDob,
                   Before(service, sixMonthsAgo), ServiceTooOld);
  }

  /** Three optional messages in order: each is present exactly when its condition holds. */
  lemma {:induction false} FlaggedMembers(a: bool, x: string, b: bool, y: string, c: bool, z: string)
    requires x != y && y != z && x != z
    ensures var errs := (if a then [x] else []) + (if b then [y] else []) + (if c then [z] else []);
      && |errs| == (if a then 1 else 0) + (if b then 1 else 0) + (if c then 1 else 0)
      && (x in errs <==> a) && (y in errs <==> b) && (z in errs <==> c)
  {
  }

  /** Rule 3 in full: the parse message, or the birth-date rules. */
  function DobErrors(dobText: string, today: Date): seq<string>
  {
    match ParseFlex(dobText)
    case None => [FailureMessage(dobText, DobFieldName)]
    case Some(dob) => DobRuleErrors(dob, today)
  }

  /** Rule 4 in full: the parse message, or the service-date rules. */
  function ServiceErrors(serviceText: string, dob: Option<Date>, today: Date): seq<string>
    requires ValidDate(today) && ToOrdinal(today) > SixMonthsDays
  {
    match ParseFlex(serviceText)
    case None => [FailureMessage(serviceText, ServiceFieldName)]
    case Some(service) => ServiceRuleErrors(service, dob, today)
  }

  /** The last check: an ID that is blank after stripping. */
  function PatientIdErrors(id: string): (errs: seq<string>)
    ensures errs == [] <==> id != ""
  {
    if id == "" then [PatientIdMissing] else []
  }

  /** The five cleaned fields `validate_record` reads before applying its rules. */
  datatype Fields = Fields(
    patientId: string,
    healthCard: string,
    versionCode: string,
    dobText: string,
    serviceText: string)

  function FieldsOf(raw: RawRecord): Fields
  {
    Fields(PatientIdOf(raw), HealthCardOf(raw), VersionCodeOf(raw), DobTextOf(raw), ServiceTextOf(raw))
  }

  /**
   * The full list `validate_record` returns for cleaned fields: health card, version code,
   * birth date, service date, patient ID, in that order.
   */
  function FieldErrors(f: Fields, today: Date): seq<string>
    requires ValidDate(today) && ToOrdinal(today) > SixMonthsDays
  {
    HealthCardErrors(f.healthCard)
    + VersionCodeErrors(f.versionCode)
    + DobErrors(f.dobText, today)
    + ServiceErrors(f.serviceText, ParseFlex(f.dobText), today)
    + PatientIdErrors(f.patientId)
  }

  function RecordErrors(raw: RawRecord, today: Date): seq<string>
    requires ValidDate(today) && ToOrdinal(today) > SixMonthsDays
  {
    FieldErrors(FieldsOf(raw), today)
  }

  /** `d.isoformat() if d else ""`. */
  function IsoOrEmpty(d: Option<Date>): string
    requires d.Some? ==> ValidDate(d.value)
  {
    if d.Some? then IsoFormat(d.value) else ""
  }

  /** The record a valid raw record normalises to: stripped fields, ISO dates; none for an invalid one. */
  function Normalized(f: Fields, today: Date): Option<PatientRecord>
    requires ValidDate(today) && ToOrdinal(today) > SixMonthsDays
  {
    if FieldErrors(f, today) != [] then None
    else
      Some(PatientRecord(
        f.patientId, f.healthCard, f.versionCode,
        IsoOrEmpty(ParseFlex(f.dobText)), IsoOrEmpty(ParseFlex(f.serviceText))))
  }

  /** Rule 3 passes exactly for a birth date that parses, is not after today and gives an age under 150. */
  lemma {:induction false} DobAccepted(dobText: string, today: Date)
    ensures var dob := ParseFlex(dobText);
      DobErrors(dobText, today) == [] <==>
        dob.Some? && !Before(today, dob.value) && AgeInYears(dob.value, today) < MaxAge
  {
    var dob := ParseFlex(dobText);
    if dob.Some? {
      DobRule(dob.value, today);
    }
  }

  /**
   * Rule 4 passes exactly for a service date that parses, is not after today, not before
   * a birth date that parsed, and at most 183 days back.
   */
  lemma {:induction false} ServiceAccepted(serviceText: string, dob: Option<Date>, today: Date)
    requires ValidDate(today) && ToOrdinal(today) > SixMonthsDays
    ensures var service := ParseFlex(serviceText);
      ServiceErrors(serviceText, dob, today) == [] <==>
        service.Some? && !Before(today, service.value) && !(dob.Some? && Before(service.value, dob.value))
        && ToOrdinal(service.value) >= ToOrdinal(today) - SixMonthsDays
  {
    var service := ParseFlex(serviceText);
    if service.Some? {
      ServiceRule(service.value, dob, today);
    }
  }

  /** A concatenation of five lists is empty exactly when every one of them is. */
  lemma {:induction false} EmptyConcat<T>(a: seq<T>, b: seq<T>, c: seq<T>, d: seq<T>, e: seq<T>)
    ensures a + b + c + d + e == [] <==> a == [] && b == [] && c == [] && d == [] && e == []
  {
    assert |a + b + c + d + e| == |a| + |b| + |c| + |d| + |e|;
  }

  /**
   * A record is accepted exactly when: the card is ten digits passing the Luhn check;
   * the version code is two capitals; the birth date parses, is not after today and
   * gives an age under 150; the service date parses, is not after today, not before the
   * birth date and at most 183 days back; and the stripped ID is not blank.
   */
  lemma {:induction false} AcceptedParts(f: Fields, today: Date)
    requires ValidDate(today) && ToOrdinal(today) > SixMonthsDays
    ensures FieldErrors(f, today) == [] <==>
      var card, code := f.healthCard, f.versionCode;
      var dob, service := ParseFlex(f.dobText), ParseFlex(f.serviceText);
      |card| == 10 && IsDigitString(card) && LuhnValid(card)
      && |code| == 2 && IsUpperLetter(code[0]) && IsUpperLetter(code[1])
      && dob.Some? && !Before(today, dob.value) && AgeInYears(dob.value, today) < MaxAge
      && service.Some? && !Before(today, service.value) && !Before(service.value, dob.value)
      && ToOrdinal(service.value) >= ToOrdinal(today) - SixMonthsDays
      && f.patientId != ""
  {
    HealthCardRule(f.healthCard);
    VersionCodeRule(f.versionCode);
    DobAccepted(f.dobText, today);
    ServiceAccepted(f.serviceText, ParseFlex(f.dobText), today);
    EmptyConcat(HealthCardErrors(f.healthCard), VersionCodeErrors(f.versionCode), DobErrors(f.dobText, today),
                ServiceErrors(f.serviceText, ParseFlex(f.dobText), today), PatientIdErrors(f.patientId));
  }

  /** Every message rule 4 adds after a successful parse is one of its three. */
  lemma {:induction false} ServiceFlagsOnly(future: bool, beforeDob: bool, tooOld: bool)
    ensures forall m :: m in ServiceFlags(future, beforeDob, tooOld) ==>
      m == ServiceFuture || m == ServiceBeforeDob || m == ServiceTooOld
  {
  }

  /** No rule before the last one ever adds the missing-ID message. */
  lemma {:induction false} EarlierRulesNeverBlameId(f: Fields, today: Date)
    requires ValidDate(today) && ToOrdinal(today) > SixMonthsDays
    ensures PatientIdMissing !in HealthCardErrors(f.healthCard) + VersionCodeErrors(f.versionCode)
    ensures PatientIdMissing !in DobErrors(f.dobText, today)
    ensures PatientIdMissing !in ServiceErrors(f.serviceText, ParseFlex(f.dobText), today)
  {
    CodeRulesNeverBlameId(f.healthCard, f.versionCode);
    DobNeverBlamesId(f.dobText, today);
    ServiceNeverBlamesId(f.serviceText, ParseFlex(f.dobText), today);
  }

  lemma {:induction false} CodeRulesNeverBlameId(card: string, code: string)
    ensures PatientIdMissing !in HealthCardErrors(card) + VersionCodeErrors(code)
  {
    MessageShapes();
    HealthCardRule(card);
    VersionCodeRule(code);
  }

  lemma {:induction false} DobNeverBlamesId(dobText: string, today: Date)
    ensures PatientIdMissing !in DobErrors(dobText, today)
  {
    MessageShapes();
    var dob := ParseFlex(dobText);
    if dob.Some? {
      DobRule(dob.value, today);
    }
  }

  lemma {:induction false} ServiceNeverBlamesId(serviceText: string, dob: Option<Date>, today: Date)
    requires ValidDate(today) && ToOrdinal(today) > SixMonthsDays
    ensures PatientIdMissing !in ServiceErrors(serviceText, dob, today)
  {
    MessageShapes();
    match ParseFlex(serviceText)
    case None =>
    case Some(service) =>
      var sixMonthsAgo := SubtractDays(today, SixMonthsDays);
      ServiceFlagsOnly(Before(today, service), dob.Some? && Before(service, dob.value), Before(service, sixMonthsAgo));
  }

  /**
   * The patient-ID check comes last: its message is in the list exactly when the
   * stripped ID is blank, and then it is the list's last entry.
   */
  lemma {:induction false} PatientIdLast(f: Fields, today: Date)
    requires ValidDate(today) && ToOrdinal(today) > SixMonthsDays
    ensures var errs := FieldErrors(f, today);
      && (PatientIdMissing in errs <==> f.patientId == "")
      && (f.patientId == "" ==> errs[|errs| - 1] == PatientIdMissing)
  {
    EarlierRulesNeverBlameId(f, today);
    var front := HealthCardErrors(f.healthCard) + VersionCodeErrors(f.versionCode)
      + DobErrors(f.dobText, today) + ServiceErrors(f.serviceText, ParseFlex(f.dobText), today);
    assert FieldErrors(f, today) == front + PatientIdErrors(f.patientId);
    assert PatientIdMissing !in front;
  }

  /**
   * The "Patient ID" label wins over "PatientID" whenever its raw text is not empty, even
   * when that text is only whitespace: the ID is then blank and the record is refused.
   */
  lemma {:induction false} BlankPrimaryIdShadows(raw: RawRecord, today: Date)
    requires ValidDate(today) && ToOrdinal(today) > SixMonthsDays
    requires Lookup(raw, PatientIdLabel) != ""
    requires forall i :: 0 <= i < |Lookup(raw, PatientIdLabel)| ==> IsSpace(Lookup(raw, PatientIdLabel)[i])
    ensures PatientIdOf(raw) == ""
    ensures PatientIdMissing in RecordErrors(raw, today)
  {
    StripShape(Lookup(raw, PatientIdLabel));
    PatientIdLast(FieldsOf(raw), today);
  }

  /**
   * A normalised record holds a ten-digit Luhn-valid card, a two-capital version code,
   * a non-blank ID, and the two dates in ISO form, each re-parsing to the date read.
   */
  lemma {:induction false} NormalizedShape(f: Fields, today: Date, r: PatientRecord)
    requires ValidDate(today) && ToOrdinal(today) > SixMonthsDays
    requires Normalized(f, today) == Some(r)
    ensures |r.HealthCardNumber| == 10 && IsDigitString(r.HealthCardNumber) && LuhnValid(r.HealthCardNumber)
    ensures |r.VersionCode| == 2 && IsUpperLetter(r.VersionCode[0]) && IsUpperLetter(r.VersionCode[1])
    ensures r.PatientID != ""
    ensures ParseFlex(f.dobText).Some? && r.DateOfBirth == IsoFormat(ParseFlex(f.dobText).value)
    ensures ParseFlex(f.serviceText).Some? && r.ServiceDate == IsoFormat(ParseFlex(f.serviceText).value)
    ensures ParseFlex(r.DateOfBirth) == ParseFlex(f.dobText) && ParseFlex(r.ServiceDate) == ParseFlex(f.serviceText)
  {
    AcceptedParts(f, today);
    IsoFormatRoundTrip(ParseFlex(f.dobText).value);
    IsoFormatRoundTrip(ParseFlex(f.serviceText).value);
  }

  /** A normalised record written back under the labels it was read from. */
  function RawOf(r: PatientRecord): RawRecord
  {
    map[PatientIdLabel := r.PatientID, HealthCardLabel := r.HealthCardNumber, VersionCodeLabel := r.VersionCode,
        DateOfBirthLabel := r.DateOfBirth, ServiceDateLabel := r.ServiceDate]
  }

  /** The five labels are pairwise different, so each lookup in RawOf finds its own field. */
  lemma {:induction false} RawOfLookups(r: PatientRecord)
    ensures Lookup(RawOf(r), PatientIdLabel) == r.PatientID
    ensures Lookup(RawOf(r), HealthCardLabel) == r.HealthCardNumber
    ensures Lookup(RawOf(r), VersionCodeLabel) == r.VersionCode
    ensures Lookup(RawOf(r), DateOfBirthLabel) == r.DateOfBirth
    ensures Lookup(RawOf(r), ServiceDateLabel) == r.ServiceDate
  {
    assert |PatientIdLabel| == 10 && |HealthCardLabel| == 18 && |DateOfBirthLabel| == 13;
    assert |VersionCodeLabel| == 12 && |ServiceDateLabel| == 12 && VersionCodeLabel[0] != ServiceDateLabel[0];
  }

  /** Reading a normalised record back gives back its own fields. */
  lemma {:induction false} FieldsOfRawOf(r: PatientRecord, dob: Date, service: Date)
    requires r.PatientID != "" && Strip(r.PatientID) == r.PatientID
    requires IsDigitString(r.HealthCardNumber)
    requires |r.VersionCode| == 2 && IsUpperLetter(r.VersionCode[0]) && IsUpperLetter(r.VersionCode[1])
    requires ValidDate(dob) && r.DateOfBirth == IsoFormat(dob)
    requires ValidDate(service) && r.ServiceDate == IsoFormat(service)
    ensures FieldsOf(RawOf(r)) == Fields(r.PatientID, r.HealthCardNumber, r.VersionCode, r.DateOfBirth, r.ServiceDate)
  {
    RawOfLookups(r);
    CardReadBack(r.HealthCardNumber);
    StripUnchanged(r.VersionCode);
    IsoReadBack(dob);
    IsoReadBack(service);
  }

  /** A card of digits only has no spaces to remove and nothing to strip. */
  lemma {:induction false} CardReadBack(card: string)
    requires IsDigitString(card)
    ensures Strip(RemoveSpaces(card)) == card
  {
    RemoveSpacesShape(card);
    StripUnchanged(card);
  }

  /** An ISO date starts and ends with a digit, so stripping keeps it whole. */
  lemma {:induction false} IsoReadBack(d: Date)
    requires ValidDate(d)
    ensures Strip(IsoFormat(d)) == IsoFormat(d)
  {
    StripUnchanged(IsoFormat(d));
  }

  /**
   * Validation is idempotent: a record that normalises to r, once written back as a raw
   * record, validates again (on the same day) and normalises to r itself.
   */
  lemma {:induction false} RevalidateNormalized(raw: RawRecord, today: Date, r: PatientRecord)
    requires ValidDate(today) && ToOrdinal(today) > SixMonthsDays
    requires Normalized(FieldsOf(raw), today) == Some(r)
    ensures RecordErrors(RawOf(r), today) == []
    ensures Normalized(FieldsOf(RawOf(r)), today) == Some(r)
  {
    var f := FieldsOf(raw);
    NormalizedShape(f, today, r);
    StripIdempotent(if Lookup(raw, PatientIdLabel) != "" then Lookup(raw, PatientIdLabel) else Lookup(raw, PatientIdAltLabel));
    var dob, service := ParseFlex(f.dobText).value, ParseFlex(f.serviceText).value;
    FieldsOfRawOf(r, dob, service);
    var g := FieldsOf(RawOf(r));
    AcceptedParts(f, today);
    AcceptedParts(g, today);
  }

  /** Rule 1 of `validate_record`: appends at most one health-card message. */
  method CheckHealthCard(healthCard: string, errors: seq<string>) returns (errorsOut: seq<string>)
    ensures errorsOut == errors + HealthCardErrors(healthCard)
  {
    errorsOut := errors;
    if healthCard == "" {
      errorsOut := errorsOut + [CardMissing];
    } else if !IsDigitString(healthCard) {
      errorsOut := errorsOut + [CardNotDigits];
    } else if |healthCard| != 10 {
      errorsOut := errorsOut + [CardLength];
    } else {
      var passes := LuhnCheck(healthCard);
      if !passes {
        errorsOut := errorsOut + [CardLuhn];
      }
    }
  }

  /** Rule 2 of `validate_record`: appends at most one version-code message. */
  method CheckVersionCode(versionCode: string, errors: seq<string>) returns (errorsOut: seq<string>)
    ensures errorsOut == errors + VersionCodeErrors(versionCode)
  {
    errorsOut := errors;
    if versionCode == "" {
      errorsOut := errorsOut + [VersionMissing];
    } else if |versionCode| != 2 {
      errorsOut := errorsOut + [VersionLength];
    } else if !IsAlphaString(versionCode) {
      errorsOut := errorsOut + [VersionNotLetters];
    } else if !IsUpperString(versionCode) {
      errorsOut := errorsOut + [VersionNotUpper];
    }
  }

  /** Rule 3 of `validate_record`: parses the birth date and checks it against `today`. */
  method CheckDateOfBirth(dobStr: string, today: Date, errors: seq<string>)
    returns (dob: Option<Date>, errorsOut: seq<string>)
    ensures dob == ParseFlex(dobStr)
    ensures errorsOut == errors + DobErrors(dobStr, today)
  {
    dob, errorsOut := ParseDateFlex(dobStr, DobFieldName, errors);
    if dob.Some? {
      if Before(today, dob.value) {
        errorsOut := errorsOut + [DobFuture];
      } else {
        var age := AgeInYears(dob.value, today);
        if age < 0 {
          errorsOut := errorsOut + [AgeNegative];
        }
        if age >= MaxAge {
          errorsOut := errorsOut + [AgeTooHigh];
        }
      }
    }
  }

  /** Rule 4 of `validate_record`: parses the service date, then checks it. */
  method CheckServiceDate(serviceStr: string, dob: Option<Date>, today: Date, errors: seq<string>)
    returns (serviceDate: Option<Date>, errorsOut: seq<string>)
    requires ValidDate(today) && ToOrdinal(today) > SixMonthsDays
    ensures serviceDate == ParseFlex(serviceStr)
    ensures errorsOut == errors + ServiceErrors(serviceStr, dob, today)
  {
    serviceDate, errorsOut := ParseDateFlex(serviceStr, ServiceFieldName, errors);
    if serviceDate.Some? {
      errorsOut := CheckParsedServiceDate(serviceDate.value, dob, today, errorsOut);
    }
  }

  /**
   * The checks of rule 4 on a parsed service date: not after today, not before a birth
   * date that parsed, not before `today - timedelta(days=183)`.
   */
  method CheckParsedServiceDate(service: Date, dob: Option<Date>, today: Date, errors: seq<string>)
    returns (errorsOut: seq<string>)
    requires ValidDate(service) && ValidDate(today) && ToOrdinal(today) > SixMonthsDays
    ensures errorsOut == errors + ServiceRuleErrors(service, dob, today)
  {
    var sixMonthsAgo := SubtractDays(today, SixMonthsDays);
    errorsOut := AppendServiceFlags(errors, Before(today, service),
                                    dob.Some? && Before(service, dob.value), Before(service, sixMonthsAgo));
  }

  /** The three appends of rule 4, each made when its condition holds. */
  method AppendServiceFlags(errors: seq<string>, future: bool, beforeDob: bool, tooOld: bool)
    returns (errorsOut: seq<string>)
    ensures errorsOut == errors + ServiceFlags(future, beforeDob, tooOld)
  {
    errorsOut := errors;
    if future {
      errorsOut := errorsOut + [ServiceFuture];
    }
    if beforeDob {
      errorsOut := errorsOut + [ServiceBeforeDob];
    }
    if tooOld {
      errorsOut := errorsOut + [ServiceTooOld];
    }
  }

  /** Rules 3 and 4: the service-date rules see the birth date only if it parsed. */
  method CheckDates(dobStr: string, serviceStr: string, today: Date, errors: seq<string>)
    returns (dob: Option<Date>, serviceDate: Option<Date>, errorsOut: seq<string>)
    requires ValidDate(today) && ToOrdinal(today) > SixMonthsDays
    ensures dob == ParseFlex(dobStr) && serviceDate == ParseFlex(serviceStr)
    ensures errorsOut == errors + DobErrors(dobStr, today) + ServiceErrors(serviceStr, dob, today)
  {
    dob, errorsOut := CheckDateOfBirth(dobStr, today, errors);
    serviceDate, errorsOut := CheckServiceDate(serviceStr, dob, today, errorsOut);
  }

  /**
   * The rules of `validate_record`, in the order they append: health card, version code,
   * birth date, service date, and the patient ID last.
   */
  method CollectErrors(f: Fields, today: Date)
    returns (errors: seq<string>, dob: Option<Date>, serviceDate: Option<Date>)
    requires ValidDate(today) && ToOrdinal(today) > SixMonthsDays
    ensures errors == FieldErrors(f, today)
    ensures dob == ParseFlex(f.dobText) && serviceDate == ParseFlex(f.serviceText)
  {
    errors := CheckHealthCard(f.healthCard, []);
    assert errors == HealthCardErrors(f.healthCard);
    errors := CheckVersionCode(f.versionCode, errors);
    dob, serviceDate, errors := CheckDates(f.dobText, f.serviceText, today, errors);
    // the patient ID check comes last
    if f.patientId == "" {
      errors := errors + [PatientIdMissing];
    }
  }

  /**
   * The rules and the normalisation of `validate_record` on the cleaned fields: valid
   * exactly when no rule appended a message, and only then is a normalised record,
   * with ISO dates, returned.
   */
  method ValidateFields(f: Fields, today: Date)
    returns (isValid: bool, errors: seq<string>, normalized: Option<PatientRecord>)
    requires ValidDate(today) && ToOrdinal(today) > SixMonthsDays
    ensures errors == FieldErrors(f, today)
    ensures isValid <==> errors == []
    ensures normalized == Normalized(f, today)
  {
    var dob, serviceDate;
    errors, dob, serviceDate := CollectErrors(f, today);
    isValid := |errors| == 0;
    if !isValid {
      return false, errors, None;
    }
    var dobIso := IsoOrEmpty(dob);
    var serviceIso := IsoOrEmpty(serviceDate);
    normalized := Some(PatientRecord(f.patientId, f.healthCard, f.versionCode, dobIso, serviceIso));
    return true, [], normalized;
  }

  /**
   * `validate_record(raw_record, today)`: the fields are looked up and cleaned, then
   * checked. `today - timedelta(days=183)` must not fall before 0001-01-01.
   */
  method ValidateRecord(raw: RawRecord, today: Date)
    returns (isValid: bool, errors: seq<string>, normalized: Option<PatientRecord>)
    requires ValidDate(today) && ToOrdinal(today) > SixMonthsDays
    ensures errors == RecordErrors(raw, today)
    ensures isValid <==> errors == []
    ensures normalized == Normalized(FieldsOf(raw), today)
  {
    isValid, errors, normalized := ValidateFields(FieldsOf(raw), today);
  }
}
