/**
 * The per-document date of the build: the first value of the `date`
 * metadata key parsed as `%Y-%m-%d`, falling back to the file's modification
 * datetime when the key is missing, its value is empty, or the parse raises
 * `ValueError`.
 */
module DateResolve {
  import opened Wrappers
  import opened Calendar
  import opened YmdParse

  /** The metadata the markdown `meta` extension extracts: each key maps to the list of its values. */
  type Meta = map<string, seq<string>>

  /**
   * Metadata the `meta` extension can produce: a key it records has at least one
   * value (a key with an empty list would make `[0]` raise `IndexError`).
   */
  predicate WellFormedMeta(meta: Meta) {
    "date" in meta ==> |meta["date"]| > 0
  }

  /** `meta.get('date', [None])[0]`: the first `date` value, or `None` when the key is absent. */
  function FirstDateValue(meta: Meta): (r: Option<string>)
    requires WellFormedMeta(meta)
    ensures r.None? <==> "date" !in meta
    ensures r.Some? ==> r.value == meta["date"][0]
  {
    if "date" in meta then Some(meta["date"][0]) else None
  }

  /** The date assigned to a document whose metadata is `meta` and whose file was last modified at `mtime`. */
  function Resolve(meta: Meta, mtime: DateTime): (r: DateTime)
    requires WellFormedMeta(meta)
    ensures ValidDateTime(mtime) ==> ValidDateTime(r)
    ensures r == mtime || r == AtMidnight(DateOf(r))
  {
    match FirstDateValue(meta)
    case None => mtime
    case Some(s) =>
      if s == "" then mtime
      else
        match ParseYMD(s)
        case Some(d) => AtMidnight(d)
        case None => mtime
  }

  /** A first `date` value that spells a real calendar date resolves to that date at midnight. */
  lemma ResolveUsesValidDate(meta: Meta, mtime: DateTime, d: Date)
    requires WellFormedMeta(meta)
    requires "date" in meta && Denotes(meta["date"][0], d)
    ensures Resolve(meta, mtime) == AtMidnight(d)
  {
    ParseYMDMatchesGrammar(meta["date"][0], d);
  }

  /** Without a `date` key, or with an empty first value, the modification datetime is used. */
  lemma ResolveWithoutDate(meta: Meta, mtime: DateTime)
    requires WellFormedMeta(meta)
    requires "date" !in meta || meta["date"][0] == ""
    ensures Resolve(meta, mtime) == mtime
  {
  }

  /** A first `date` value that does not spell a calendar date falls back to the modification datetime. */
  lemma ResolveMalformedDate(meta: Meta, mtime: DateTime)
    requires WellFormedMeta(meta)
    requires "date" in meta && forall d :: !Denotes(meta["date"][0], d)
    ensures Resolve(meta, mtime) == mtime
  {
    ParseYMDFailsOffGrammar(meta["date"][0]);
  }

  /**
   * Reference statement of the policy: the date the first `date` value spells,
   * at midnight, if it spells one; otherwise the modification datetime.
   */
  ghost function ReferenceDate(meta: Meta, mtime: DateTime): DateTime
    requires WellFormedMeta(meta)
  {
    if "date" in meta && exists d :: Denotes(meta["date"][0], d) then
      var d :| Denotes(meta["date"][0], d);
      AtMidnight(d)
    else
      mtime
  }

  /** The resolver implements the reference policy on every input. */
  lemma ResolveMatchesReference(meta: Meta, mtime: DateTime)
    requires WellFormedMeta(meta)
    ensures Resolve(meta, mtime) == ReferenceDate(meta, mtime)
  {
    if "date" in meta {
      var s := meta["date"][0];
      ParseYMDFailsOffGrammar(s);
      if exists d :: Denotes(s, d) {
        var d :| Denotes(s, d);
        ParseYMDMatchesGrammar(s, d);
        var d' :| Denotes(s, d') && ReferenceDate(meta, mtime) == AtMidnight(d');
        ParseYMDMatchesGrammar(s, d');
      }
    }
  }

  /** Only the first `date` value is consulted: later repeated values change nothing. */
  lemma ResolveIgnoresLaterValues(meta: Meta, mtime: DateTime, first: string, rest: seq<string>)
    ensures Resolve(meta["date" := [first] + rest], mtime) == Resolve(meta["date" := [first]], mtime)
  {
  }

  /** Keys other than `date` have no influence on the resolved date. */
  lemma ResolveIgnoresOtherKeys(meta: Meta, mtime: DateTime, key: string, values: seq<string>)
    requires WellFormedMeta(meta) && key != "date"
    ensures Resolve(meta[key := values], mtime) == Resolve(meta, mtime)
  {
  }

  /** Concrete documents: a valid date, a malformed one, an impossible one, and none. */
  lemma ResolveExamples(mtime: DateTime)
    ensures Resolve(map["date" := ["2024-02-29"]], mtime) == DateTime(2024, 2, 29, 0, 0, 0, 0)
    ensures Resolve(map["date" := ["not-a-date"]], mtime) == mtime
    ensures Resolve(map["date" := ["2023-02-29"]], mtime) == mtime
    ensures Resolve(map["date" := [""]], mtime) == mtime
    ensures Resolve(map["title" := ["Hello"]], mtime) == mtime
  {
    ParseYMDLeapDay();
    ParseYMDRejectsOffGrammar();
    ParseYMDRejectsNonLeapDay();
  }

  /** The two dated files of the three-file build resolve to their dates. */
  lemma ResolveFirstOfMonth(mtime: DateTime)
    ensures Resolve(map["date" := ["2024-01-01"]], mtime) == DateTime(2024, 1, 1, 0, 0, 0, 0)
    ensures Resolve(map["date" := ["2024-03-01"]], mtime) == DateTime(2024, 3, 1, 0, 0, 0, 0)
  {
    ParseYMDNewYear();
    ParseYMDFirstOfMarch();
  }

}
