# bluntbangs post dates and ordering, in Dafny

This project models the part of the bluntbangs static-site generator that
has logic of its own: the loop of `generate()` in `generate.py` that turns
each markdown file into a post record, and the sort that orders the posts
for the index page.

- **Date resolution** (`DateResolve`). The first value of the `date`
  metadata key is parsed with `datetime.strptime(value, '%Y-%m-%d')`. If
  the key is missing, the value is empty, or the parse raises `ValueError`,
  the file's modification datetime is used instead. Resolution never fails.
- **The date grammar** (`YmdParse`). This is what CPython's `strptime`
  accepts for that format:
  - exactly four digits for the year;
  - a one- or two-digit month in 1..12;
  - a day of `01`..`31`, `1`..`9`, or a space followed by `1`..`9`;
  - single dashes between the fields, and nothing left over;
  - then the calendar check of `datetime.date`: year 1..9999, the
    Gregorian leap-year rule, and the days of each month.
- **Calendar values** (`Calendar`). Naive datetimes are ordered
  lexicographically on (year, month, day, hour, minute, second,
  microsecond), as Python compares them.
- **Display date** (`DateFormat`). `formatted_date` is
  `strftime('%Y.%m.%d')`: a zero-padded four-digit year, then a two-digit
  month and a two-digit day, separated by dots.
- **Post records and ordering** (`PostList`).
  - Each file yields exactly one record.
  - The records are appended in glob order.
  - `posts.sort(key=date, reverse=True)` is modelled as a stable insertion
    sort, newest first.
  - Posts with equal dates keep the order in which they were appended.

The modification datetime, the converted HTML and the metadata map are
inputs. Reading files, `stat`, the markdown converter and the template
engine are not modelled.

## Model

| member | source | states |
|---|---|---|
| Calendar.EarlierIsStrictTotalOrder | generate.py:54 | The datetime comparison behind the sort key is irreflexive, transitive, asymmetric, and total on distinct values. |
| YmdParse.ParseYMD | generate.py:41 | A successful parse always yields a valid calendar date: year 1-9999, month 1-12, and a day that exists in that month. |
| YmdParse.ParseYMDMatchesGrammar | generate.py:41 | The parse returns date `d` if and only if the string is four year digits, a dash, a 1–2 digit month, a dash and a day field that read as `d`, and `d` is a real calendar date. |
| YmdParse.ParseYMDFailsOffGrammar | generate.py:40-43 | The parse fails if and only if the string spells no valid calendar date in that grammar. This is the `ValueError` path. |
| YmdParse.ParseYMDLeapDay | generate.py:41 | `2024-02-29` parses to 29 February 2024. |
| YmdParse.ParseYMDUnpadded | generate.py:41 | `2024-1-5` parses to 5 January 2024: strptime does not require zero padding. |
| YmdParse.ParseYMDSpacePaddedDay | generate.py:41 | `2024-01- 5` also parses to 5 January 2024: a one-digit day may be preceded by a space. |
| YmdParse.ParseYMDRejectsOffGrammar | generate.py:40-43 | `not-a-date`, trailing characters (`2024-01-01x`) and month 13 are rejected. |
| YmdParse.ParseYMDRejectsNonLeapDay | generate.py:40-43 | `2023-02-29` is rejected because 2023 is not a leap year. |
| YmdParse.ParseYMDRejectsApril31 | generate.py:40-43 | `2024-04-31` is rejected because April has 30 days. |
| YmdParse.ParseYMDRejectsYearZero | generate.py:40-43 | `0000-01-01` matches the pattern but is rejected: year 0 is below the minimum year. |
| DateFormat.FormatDotted | generate.py:50 | The display date is ten characters: four digits, a dot, two digits, a dot, two digits. |
| DateFormat.PadDecimalOfValue | generate.py:50 | Zero-padding the value of a digit string to the string's width gives back the same string. |
| DateFormat.FormatDottedRoundTrip | generate.py:50 | Turning the dots of `formatted_date` back into dashes and parsing the result gives the record's year, month and day. |
| DateFormat.FormatOfZeroPaddedInput | generate.py:41-50 | For a zero-padded `YYYY-MM-DD` input that parses, `formatted_date` equals the input with every `-` replaced by `.`. |
| DateResolve.FirstDateValue | generate.py:38 | The result is absent exactly when there is no `date` key. Otherwise it is the first value in that key's list. |
| DateResolve.Resolve | generate.py:38-45 | The resolved date is a valid datetime whenever the modification time is one. It is either the modification time or a datetime at midnight. |
| DateResolve.ResolveUsesValidDate | generate.py:38-41 | If the first `date` value spells calendar date `d`, the resolved date is `d` at midnight. |
| DateResolve.ResolveWithoutDate | generate.py:38-45 | With no `date` key, or an empty first value, the resolved date is the modification datetime. |
| DateResolve.ResolveMalformedDate | generate.py:40-43 | A first value that spells no calendar date resolves to the modification datetime. |
| DateResolve.ResolveMatchesReference | generate.py:38-45 | On every input, the resolver agrees with the declarative policy: the date spelled at midnight if there is one, the modification datetime otherwise. |
| DateResolve.ResolveIgnoresLaterValues | generate.py:38 | Only the first `date` value is consulted. Values after it change nothing. |
| DateResolve.ResolveIgnoresOtherKeys | generate.py:36-38 | Metadata keys other than `date` have no effect on the resolved date. |
| DateResolve.ResolveExamples | generate.py:38-45 | Concrete cases: a leap-day date, `not-a-date`, `2023-02-29`, an empty value, and no `date` key. |
| PostList.MakePost | generate.py:47-52 | A record keeps the file's HTML and metadata. Its date is the modification time or a midnight date. |
| PostList.MakePostDisplayDateReadsBack | generate.py:47-52 | A record's `formatted_date` reads back, as `%Y-%m-%d`, to the calendar date of its `date`. |
| PostList.MakePosts | generate.py:31-52 | The unsorted list has one record per file, and its i-th record is built from the i-th file in glob order. |
| PostList.Insert | generate.py:54 | Inserting a post adds exactly that post: the result holds the input's posts plus the new one, and is one longer. |
| PostList.InsertKeepsNewestFirst | generate.py:54 | Inserting a post into a newest-first list keeps the list newest first. |
| PostList.SortNewestFirst | generate.py:54 | The sorted list is newest first and is a permutation (equal multisets) of its input. |
| PostList.SortIsStable | generate.py:54 | For every date, the posts with that date appear in the same relative order before and after the sort. |
| PostList.NewestFirstStableIsUnique | generate.py:54 | Two newest-first lists that order each date's posts the same way are equal. |
| PostList.SortCharacterization | generate.py:54 | A list is the sort's result if and only if it is newest first and keeps each date's posts in input order. |
| PostList.CollectPosts | generate.py:31-52 | The loop appends exactly one record per file, in encounter order. |
| PostList.Generate | generate.py:31-69 | The reported count equals the number of files. The final list is a permutation of the per-file records, newest first, and stable. |
| PostList.ThreeFileBuild | generate.py:38-54 | Take files dated 2024-01-01 and 2024-03-01, plus a `not-a-date` file modified between those dates. The dated files resolve to those dates at midnight. The malformed file takes its modification time and sorts between the other two. |

## Left out

- Filesystem work is not modelled. This covers `glob`, `open`/`read`,
  `stat`, `setup_output_dir` (`rmtree`/`mkdir`), `copytree`, and writing
  `index.html` (generate.py:9-12, 31-33, 63-67). It is I/O with no logic.
  Files are given as a sequence of `SourceFile` values in glob order.
- The markdown conversion and the `Meta` extraction (generate.py:34-36)
  are a foreign library. The converted HTML and the metadata map are
  inputs.
- Jinja2 template loading and rendering (generate.py:22-23, 56-61) are a
  foreign templating engine.
- `datetime.fromtimestamp` (generate.py:43, 45) depends on the time zone
  and the OS. The modification datetime is an input `DateTime`.
- `config.py` holds only constants, and `COPYRIGHT` depends on the clock.
- The console messages and the early return when the content directory is
  missing (generate.py:27-29, 69) are not modelled.
- DateResolve.WellFormedMeta: a `date` key with an empty value list would
  make `[0]` raise `IndexError` (generate.py:38). The markdown `meta`
  extension never produces one, so it is a precondition rather than an
  error path.
- YmdParse.ParseYMD: only ASCII digits are accepted. Python's `\d` in
  `strptime`'s pattern also accepts other Unicode decimal digits (for
  example full-width digits), and such dates are not modelled.
- DateFormat.FormatDotted: `%Y` is modelled as four zero-padded digits.
  Some platform C libraries print years below 1000 without padding. Such
  years come from metadata dates as well as from modification times:
  `%Y` accepts any four digits, so `0999-06-15` parses to year 999
  (generate.py:41). `FormatOfZeroPaddedInput` holds for years 1-999 only
  under the four-digit `%Y` this model assumes.
- Files are taken in unsorted `glob` order (generate.py:31), so the order
  of posts with equal dates is whatever order the filesystem lists them in.
- `md.convert` is not wrapped in `try` (generate.py:34-35), so a
  conversion failure aborts the build. No per-file error path exists to
  model.
- The date format is `strptime`'s (generate.py:41), which accepts
  unpadded and space-padded month and day fields. It is not a strict
  `YYYY-MM-DD`.
- `generate.py` has no excerpts, slugs, post/page classification,
  newer/older links, feed, sitemap or 404 output. There is nothing of
  these to model.
