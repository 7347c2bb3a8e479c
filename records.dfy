/** The snapshot loader of app.py (`load_data`): raw JSON records become
    normalised rows, one row per record, with documented stand-ins for the
    values pandas cannot read. */
module Records {
  import opened Wrappers
  import opened Coerce

  /** A calendar date a pandas Timestamp can hold. */
  type Timestamp = d: Date | Representable(d) witness Date(1970, 1, 1)

  /** A `days_to_expiry` value as the JSON carries it. */
  datatype RawDays = NullDays | NumberDays(n: int) | TextDays(s: string)

  /** One element of the snapshot's `records` list; `None` is JSON null (an
      absent key reads the same way, since pandas pads it with NaN). */
  datatype RawRecord = RawRecord(
    customerId: string,
    customerName: string,
    riskRating: Option<string>,
    kycDocumentType: string,
    docExpiryDate: Option<string>,
    daysToExpiry: RawDays,
    expiryBucket: string,
    relationshipManager: Option<string>)

  /** A normalised row: `None` days is NaN, a `None` date is NaT. */
  datatype Record = Record(
    customerId: string,
    customerName: string,
    riskRating: string,
    kycDocumentType: string,
    docExpiryDate: Option<Timestamp>,
    daysToExpiry: Option<int>,
    expiryBucket: string,
    relationshipManager: string)

  const Unknown: string := "Unknown"

  /** `fillna(default)` on one cell. */
  function FillNa(v: Option<string>, default: string): string
  {
    match v
    case None => default
    case Some(s) => s
  }

  /** The raw values `pd.to_numeric` can read as a number. */
  predicate Numeric(v: RawDays)
  {
    v.NumberDays? || (v.TextDays? && IsIntText(v.s))
  }

  /** `pd.to_numeric(..., errors="coerce")` on one cell. */
  function ToNumeric(v: RawDays): (r: Option<int>)
    ensures r.Some? <==> Numeric(v)
    ensures v.NumberDays? ==> r == Some(v.n)
    ensures v.TextDays? ==> r == ParseInt(v.s)
  {
    match v
    case NullDays => None
    case NumberDays(n) => Some(n)
    case TextDays(s) => ParseInt(s)
  }

  /** `pd.to_datetime(..., errors="coerce")` on one cell. */
  function ToDatetime(v: Option<string>): (r: Option<Timestamp>)
    ensures r.Some? ==> v == Some(FormatDate(r.value))
    ensures r.None? <==> v.None? || ParseDate(v.value).None?
  {
    match v
    case None => None
    case Some(s) =>
      match ParseDate(s)
      case None => None
      case Some(d) => FormatParseDate(s); Some(d)
  }

  /** The four column rewrites of `load_data`, applied to one record. */
  function Normalize(raw: RawRecord): (r: Record)
    ensures raw.riskRating.None? ==> r.riskRating == Unknown
    ensures raw.riskRating.Some? ==> r.riskRating == raw.riskRating.value
    ensures raw.relationshipManager.None? ==> r.relationshipManager == Unknown
    ensures raw.relationshipManager.Some? ==> r.relationshipManager == raw.relationshipManager.value
    ensures r.daysToExpiry == ToNumeric(raw.daysToExpiry)
    ensures r.daysToExpiry.None? <==> !Numeric(raw.daysToExpiry)
    ensures r.docExpiryDate == ToDatetime(raw.docExpiryDate)
    ensures r.docExpiryDate.Some? ==> raw.docExpiryDate == Some(FormatDate(r.docExpiryDate.value))
    ensures r.customerId == raw.customerId && r.customerName == raw.customerName
    ensures r.kycDocumentType == raw.kycDocumentType && r.expiryBucket == raw.expiryBucket
  {
    Record(
      raw.customerId,
      raw.customerName,
      FillNa(raw.riskRating, Unknown),
      raw.kycDocumentType,
      ToDatetime(raw.docExpiryDate),
      ToNumeric(raw.daysToExpiry),
      raw.expiryBucket,
      FillNa(raw.relationshipManager, Unknown))
  }

  /** The JSON a normalised row would be written back as. */
  function Export(r: Record): RawRecord
  {
    RawRecord(
      r.customerId,
      r.customerName,
      Some(r.riskRating),
      r.kycDocumentType,
      match r.docExpiryDate case None => None case Some(d) => Some(FormatDate(d)),
      match r.daysToExpiry case None => NullDays case Some(n) => NumberDays(n),
      r.expiryBucket,
      Some(r.relationshipManager))
  }

  /** Normalisation is stable: a normalised row, written out and loaded
      again, comes back unchanged. */
  lemma NormalizeExport(r: Record)
    ensures Normalize(Export(r)) == r
  {
    if r.docExpiryDate.Some? {
      ParseFormatDate(r.docExpiryDate.value);
    }
  }

  // ---------------------------------------------------------------------------
  // The snapshot file
  // ---------------------------------------------------------------------------

  /** The top-level JSON object, as far as the dashboard reads it. */
  datatype Document = Document(records: Option<seq<RawRecord>>, inputFile: Option<string>)

  /** `{}`: what `load_data` returns as the raw document when there is no file. */
  const NoDocument := Document(None, None)

  /** The snapshot path: absent, or present with its text. */
  datatype Source = Missing | Present(content: string)

  /** `json.loads` raised on the file's text. */
  datatype LoadError = MalformedSnapshot

  datatype Loaded = Loaded(raw: Document, rows: seq<Record>)

  /** `raw.get("records", [])` */
  function RecordsOf(doc: Document): seq<RawRecord>
  {
    match doc.records
    case None => []
    case Some(rs) => rs
  }

  /** `load_data`: `decode` stands for `json.loads`, which either fails or
      yields the document. */
  function LoadData(src: Source, decode: string -> Option<Document>): (r: Result<Loaded, LoadError>)
    ensures src.Missing? ==> r == Ok(Loaded(NoDocument, []))
    ensures src.Present? ==> (r.Err? <==> decode(src.content).None?)
    ensures src.Present? && r.Ok? ==> r.value.raw == decode(src.content).value
    ensures r.Ok? ==> |r.value.rows| == |RecordsOf(r.value.raw)|
    ensures r.Ok? ==> forall i :: 0 <= i < |r.value.rows| ==> r.value.rows[i] == Normalize(RecordsOf(r.value.raw)[i])
  {
    match src
    case Missing => Ok(Loaded(NoDocument, []))
    case Present(text) =>
      match decode(text)
      case None => Err(MalformedSnapshot)
      case Some(raw) =>
        var records := RecordsOf(raw);
        if |records| == 0 then Ok(Loaded(raw, []))
        else Ok(Loaded(raw, seq(|records|, i requires 0 <= i < |records| => Normalize(records[i]))))
  }

  // ---------------------------------------------------------------------------
  // The text pandas shows for each cell (`str(v)`)
  // ---------------------------------------------------------------------------

  /** A days cell: NaN shows as `nan`, a number as its decimal text. */
  function DaysText(d: Option<int>): (s: string)
    ensures d.None? ==> s == "nan"
    ensures d.Some? ==> ParseInt(s) == d
  {
    match d
    case None => "nan"
    case Some(n) => ParseShowInt(n); ShowInt(n)
  }

  /** A date cell: NaT shows as `NaT`, a Timestamp as `YYYY-MM-DD 00:00:00`. */
  function DateText(d: Option<Timestamp>): (s: string)
    ensures d.None? ==> s == "NaT"
    ensures d.Some? ==> |s| == 19 && ParseDate(s[..10]) == d && s[10..] == " 00:00:00"
  {
    match d
    case None => "NaT"
    case Some(t) =>
      ParseFormatDate(t);
      var s := TimestampText(t);
      assert s[..10] == FormatDate(t);
      s
  }

  /** The values of a row, in column order, as `str` renders them. */
  function FieldTexts(r: Record): (t: seq<string>)
    ensures |t| == 8
    ensures t[0] == r.customerId && t[1] == r.customerName
    ensures t[2] == r.riskRating && t[3] == r.kycDocumentType
    ensures t[6] == r.expiryBucket && t[7] == r.relationshipManager
    ensures r.docExpiryDate.None? ==> t[4] == "NaT"
    ensures r.docExpiryDate.Some? ==>
              && |t[4]| == 19
              && ParseDate(t[4][..10]) == r.docExpiryDate
              && t[4][10..] == " 00:00:00"
    ensures r.daysToExpiry.None? ==> t[5] == "nan"
    ensures r.daysToExpiry.Some? ==> ParseInt(t[5]) == r.daysToExpiry
  {
    [r.customerId, r.customerName, r.riskRating, r.kycDocumentType,
     DateText(r.docExpiryDate), DaysText(r.daysToExpiry), r.expiryBucket, r.relationshipManager]
  }
}
