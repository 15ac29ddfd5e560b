/**
 * The post list of one build: one record per markdown file, in the order the
 * content directory's glob yields the files, then sorted newest first by a
 * stable sort (`posts.sort(key=lambda x: x['date'], reverse=True)`).
 */
module PostList {
  import opened Wrappers
  import opened Calendar
  import opened YmdParse
  import opened DateFormat
  import opened DateResolve

  /**
   * What the loop body knows about one `.md` file once the markdown converter
   * and `stat` have run: the converted HTML, the extracted metadata, and the
   * modification datetime.
   */
  datatype SourceFile = SourceFile(html: string, meta: Meta, mtime: DateTime)

  /** The dictionary appended to `posts`. */
  datatype Post = Post(content: string, date: DateTime, formattedDate: string, meta: Meta)

  predicate WellFormedSource(f: SourceFile) {
    WellFormedMeta(f.meta) && ValidDateTime(f.mtime)
  }

  /** The record built for one file. */
  function MakePost(f: SourceFile): (p: Post)
    requires WellFormedSource(f)
    ensures p.content == f.html && p.meta == f.meta
    ensures p.date == f.mtime || p.date == AtMidnight(DateOf(p.date))
  {
    var date := Resolve(f.meta, f.mtime);
    Post(f.html, date, FormatDotted(date), f.meta)
  }

  /** A record's display date reads back, dots turned into dashes, as the calendar date of its `date`. */
  lemma MakePostDisplayDateReadsBack(f: SourceFile)
    requires WellFormedSource(f)
    ensures ParseYMD(Replace(MakePost(f).formattedDate, '.', '-')) == Some(DateOf(MakePost(f).date))
  {
    FormatDottedRoundTrip(MakePost(f).date);
  }

  /** The unsorted list: one record per file, in encounter order. */
  function MakePosts(files: seq<SourceFile>): (r: seq<Post>)
    requires forall i :: 0 <= i < |files| ==> WellFormedSource(files[i])
    ensures |r| == |files|
    ensures forall i :: 0 <= i < |files| ==> r[i] == MakePost(files[i])
  {
    seq(|files|, i requires 0 <= i < |files| && WellFormedSource(files[i]) => MakePost(files[i]))
  }

  /** Dates never increase along the list. */
  predicate NewestFirst(s: seq<Post>) {
    forall i, j :: 0 <= i < j < |s| ==> !Earlier(s[i].date, s[j].date)
  }

  /** The posts of `s` whose date is exactly `t`, in their order in `s`. */
  function WithDate(s: seq<Post>, t: DateTime): (r: seq<Post>)
    ensures |r| <= |s|
  {
    if |s| == 0 then []
    else if s[0].date == t then [s[0]] + WithDate(s[1..], t)
    else WithDate(s[1..], t)
  }

  /** A sequence headed by `p` is newest first when its tail is and `p` is not older than any post of the tail. */
  lemma NewestFirstCons(p: Post, s: seq<Post>)
    requires NewestFirst(s)
    requires forall q :: q in s ==> !Earlier(p.date, q.date)
    ensures NewestFirst([p] + s)
  {
    var r := [p] + s;
    forall i, j | 0 <= i < j < |r|
      ensures !Earlier(r[i].date, r[j].date)
    {
      if i == 0 {
        assert r[j] in s;
      } else {
        assert r[i] == s[i - 1] && r[j] == s[j - 1];
      }
    }
  }

  /** A post is selected exactly when it occurs in the list and carries the date. */
  lemma {:induction false} WithDateMembers(s: seq<Post>, t: DateTime, p: Post)
    ensures p in WithDate(s, t) <==> p in s && p.date == t
  {
    if |s| > 0 {
      WithDateMembers(s[1..], t, p);
      assert s == [s[0]] + s[1..];
    }
  }

  /**
   * Insert `x` into `s` just before the first post that is not strictly newer
   * than `x`, so that it precedes every post of equal date.
   */
  function Insert(x: Post, s: seq<Post>): (r: seq<Post>)
    ensures multiset(r) == multiset(s) + multiset{x}
    ensures |r| == |s| + 1
  {
    if |s| == 0 then [x]
    else if Earlier(x.date, s[0].date) then
      assert s == [s[0]] + s[1..];
      [s[0]] + Insert(x, s[1..])
    else
      [x] + s
  }

  /** Inserting into a newest-first list keeps it newest first. */
  lemma {:induction false} InsertKeepsNewestFirst(x: Post, s: seq<Post>)
    requires NewestFirst(s)
    ensures NewestFirst(Insert(x, s))
  {
    if |s| == 0 {
    } else if Earlier(x.date, s[0].date) {
      var rest := Insert(x, s[1..]);
      InsertKeepsNewestFirst(x, s[1..]);
      forall q | q in rest
        ensures !Earlier(s[0].date, q.date)
      {
        assert q in multiset(rest);
        if q != x {
          var j :| 1 <= j < |s| && s[j] == q;
        }
      }
      NewestFirstCons(s[0], rest);
    } else {
      forall q | q in s
        ensures !Earlier(x.date, q.date)
      {
        var j :| 0 <= j < |s| && s[j] == q;
        NotEarlierTransitive(x.date, s[0].date, s[j].date);
      }
      NewestFirstCons(x, s);
    }
  }

  /** Stable insertion sort, newest first: the head is inserted ahead of its equal-dated successors. */
  function SortNewestFirst(s: seq<Post>): (r: seq<Post>)
    ensures NewestFirst(r)
    ensures multiset(r) == multiset(s)
    ensures |r| == |s|
  {
    if |s| == 0 then []
    else
      assert s == [s[0]] + s[1..];
      InsertKeepsNewestFirst(s[0], SortNewestFirst(s[1..]));
      Insert(s[0], SortNewestFirst(s[1..]))
  }

  lemma {:induction false} WithDateInsert(x: Post, s: seq<Post>, t: DateTime)
    ensures WithDate(Insert(x, s), t) == (if x.date == t then [x] else []) + WithDate(s, t)
  {
    if |s| > 0 && Earlier(x.date, s[0].date) {
      WithDateInsert(x, s[1..], t);
      EarlierIsStrictTotalOrder(x.date, s[0].date, t);
      assert ([s[0]] + Insert(x, s[1..]))[1..] == Insert(x, s[1..]);
    }
  }

  /**
   * The sort is stable: for every date, the posts carrying that date appear in
   * the same relative order before and after sorting.
   */
  lemma {:induction false} SortIsStable(s: seq<Post>, t: DateTime)
    ensures WithDate(SortNewestFirst(s), t) == WithDate(s, t)
  {
    if |s| > 0 {
      SortIsStable(s[1..], t);
      WithDateInsert(s[0], SortNewestFirst(s[1..]), t);
    }
  }

  /** The newest post of a newest-first list is not older than any post of the list. */
  lemma HeadIsNewest(a: seq<Post>, p: Post)
    requires NewestFirst(a) && p in a
    ensures !Earlier(a[0].date, p.date)
  {
    var i :| 0 <= i < |a| && a[i] == p;
    if i > 0 {
      assert !Earlier(a[0].date, a[i].date);
    } else {
      EarlierIsStrictTotalOrder(p.date, p.date, p.date);
    }
  }

  /** Two newest-first lists with the same posts per date start with posts of the same date. */
  lemma HeadDatesAgree(a: seq<Post>, b: seq<Post>)
    requires NewestFirst(a) && NewestFirst(b) && |a| > 0 && |b| > 0
    requires WithDate(a, a[0].date) == WithDate(b, a[0].date)
    requires WithDate(a, b[0].date) == WithDate(b, b[0].date)
    ensures a[0].date == b[0].date
  {
    WithDateMembers(b, b[0].date, b[0]);
    WithDateMembers(a, b[0].date, b[0]);
    WithDateMembers(a, a[0].date, a[0]);
    WithDateMembers(b, a[0].date, a[0]);
    HeadIsNewest(a, b[0]);
    HeadIsNewest(b, a[0]);
    EarlierIsStrictTotalOrder(a[0].date, b[0].date, a[0].date);
  }

  /**
   * Two newest-first lists that agree, date by date, on the order of their
   * posts are the same list.
   */
  lemma {:induction false} NewestFirstStableIsUnique(a: seq<Post>, b: seq<Post>)
    requires NewestFirst(a) && NewestFirst(b)
    requires forall t :: WithDate(a, t) == WithDate(b, t)
    ensures a == b
  {
    if |a| == 0 || |b| == 0 {
      if |a| > 0 {
        WithDateMembers(a, a[0].date, a[0]);
        WithDateMembers(b, a[0].date, a[0]);
      } else if |b| > 0 {
        WithDateMembers(b, b[0].date, b[0]);
        WithDateMembers(a, b[0].date, b[0]);
      }
    } else {
      var ta := a[0].date;
      HeadDatesAgree(a, b);
      assert WithDate(a, ta) == [a[0]] + WithDate(a[1..], ta);
      assert WithDate(b, ta) == [b[0]] + WithDate(b[1..], ta);
      forall t
        ensures WithDate(a[1..], t) == WithDate(b[1..], t)
      {
        assert WithDate(a, t) == WithDate(b, t);
        if t != ta {
          assert WithDate(a, t) == WithDate(a[1..], t);
          assert WithDate(b, t) == WithDate(b[1..], t);
        } else {
          assert WithDate(a[1..], t) == WithDate(a, t)[1..];
          assert WithDate(b[1..], t) == WithDate(b, t)[1..];
        }
      }
      NewestFirstStableIsUnique(a[1..], b[1..]);
      assert a[0] == WithDate(a, ta)[0] == WithDate(b, ta)[0] == b[0];
      assert a == [a[0]] + a[1..] && b == [b[0]] + b[1..];
    }
  }

  /**
   * `r` orders the posts of `s` newest first and keeps, for every date, the
   * original relative order of the posts with that date.
   */
  ghost predicate StableNewestFirstOf(r: seq<Post>, s: seq<Post>) {
    NewestFirst(r) && forall t :: WithDate(r, t) == WithDate(s, t)
  }

  /**
   * `SortNewestFirst(s)` is characterised without reference to its algorithm:
   * it is the one stable newest-first ordering of `s`.
   */
  lemma SortCharacterization(s: seq<Post>, r: seq<Post>)
    ensures r == SortNewestFirst(s) <==> StableNewestFirstOf(r, s)
  {
    var sorted := SortNewestFirst(s);
    SortIsStableForAllDates(s);
    assert StableNewestFirstOf(sorted, s);
    if StableNewestFirstOf(r, s) {
      assert forall t :: WithDate(r, t) == WithDate(sorted, t);
      NewestFirstStableIsUnique(r, sorted);
    }
  }

  lemma SortIsStableForAllDates(s: seq<Post>)
    ensures forall t :: WithDate(SortNewestFirst(s), t) == WithDate(s, t)
  {
    forall t
      ensures WithDate(SortNewestFirst(s), t) == WithDate(s, t)
    {
      SortIsStable(s, t);
    }
  }

  /** The loop over the content directory: one record appended per file, in glob order. */
  method CollectPosts(files: seq<SourceFile>) returns (appended: seq<Post>)
    requires forall i :: 0 <= i < |files| ==> WellFormedSource(files[i])
    ensures |appended| == |files|
    ensures forall i :: 0 <= i < |files| ==> appended[i] == MakePost(files[i])
  {
    appended := [];
    var i := 0;
    while i < |files|
      invariant 0 <= i <= |files|
      invariant |appended| == i
      invariant forall j :: 0 <= j < i ==> appended[j] == MakePost(files[j])
    {
      appended := appended + [MakePost(files[i])];
      i := i + 1;
    }
  }

  /**
   * The build's post list: the collected records sorted newest first, stably,
   * with the count the build reports. `files` is in glob order.
   */
  method Generate(files: seq<SourceFile>) returns (posts: seq<Post>, count: nat)
    requires forall i :: 0 <= i < |files| ==> WellFormedSource(files[i])
    ensures count == |files| == |posts|
    ensures multiset(posts) == multiset(MakePosts(files))
    ensures StableNewestFirstOf(posts, MakePosts(files))
  {
    var appended := CollectPosts(files);
    assert appended == MakePosts(files);
    posts := SortNewestFirst(appended);
    SortCharacterization(appended, posts);
    count := |posts|;
  }

  lemma InsertAhead(x: Post, y: Post, s: seq<Post>)
    requires !Earlier(x.date, y.date)
    ensures Insert(x, [y] + s) == [x, y] + s
  {
  }

  lemma InsertBehind(x: Post, y: Post, s: seq<Post>)
    requires Earlier(x.date, y.date)
    ensures Insert(x, [y] + s) == [y] + Insert(x, s)
  {
    assert ([y] + s)[1..] == s;
  }

  lemma SortCons(p: Post, s: seq<Post>)
    ensures SortNewestFirst([p] + s) == Insert(p, SortNewestFirst(s))
  {
    assert ([p] + s)[1..] == s;
  }

  lemma SortTwo(p2: Post, p3: Post)
    requires Earlier(p3.date, p2.date)
    ensures SortNewestFirst([p2, p3]) == [p2, p3]
  {
    EarlierIsStrictTotalOrder(p3.date, p2.date, p3.date);
    SortCons(p3, []);
    SortCons(p2, [p3]);
    InsertAhead(p2, p3, []);
  }

  lemma SortThree(p1: Post, p2: Post, p3: Post)
    requires Earlier(p1.date, p3.date) && Earlier(p3.date, p2.date)
    ensures SortNewestFirst([p1, p2, p3]) == [p2, p3, p1]
  {
    EarlierIsStrictTotalOrder(p1.date, p3.date, p2.date);
    SortTwo(p2, p3);
    SortCons(p1, [p2, p3]);
    InsertBehind(p1, p2, [p3]);
    InsertBehind(p1, p3, []);
  }

  /** The dates the three files of `ThreeFileBuild` resolve to. */
  lemma ThreeFileDates(f1: SourceFile, f2: SourceFile, f3: SourceFile)
    requires WellFormedSource(f1) && WellFormedSource(f2) && WellFormedSource(f3)
    requires f1.meta == map["date" := ["2024-01-01"]]
    requires f2.meta == map["date" := ["2024-03-01"]]
    requires f3.meta == map["date" := ["not-a-date"]]
    ensures MakePost(f1).date == DateTime(2024, 1, 1, 0, 0, 0, 0)
    ensures MakePost(f2).date == DateTime(2024, 3, 1, 0, 0, 0, 0)
    ensures MakePost(f3).date == f3.mtime
  {
    ResolveFirstOfMonth(f1.mtime);
    ResolveFirstOfMonth(f2.mtime);
    ResolveExamples(f3.mtime);
    assert MakePost(f1).date == Resolve(f1.meta, f1.mtime);
    assert MakePost(f2).date == Resolve(f2.meta, f2.mtime);
    assert MakePost(f3).date == Resolve(f3.meta, f3.mtime);
  }

  /**
   * Three files dated 2024-01-01, 2024-03-01 and "not-a-date", the last one
   * modified at a time between those two dates: three records, the malformed
   * one dated by its modification time and sorted between the other two.
   */
  lemma ThreeFileBuild(f1: SourceFile, f2: SourceFile, f3: SourceFile)
    requires WellFormedSource(f1) && WellFormedSource(f2) && WellFormedSource(f3)
    requires f1.meta == map["date" := ["2024-01-01"]]
    requires f2.meta == map["date" := ["2024-03-01"]]
    requires f3.meta == map["date" := ["not-a-date"]]
    requires Earlier(DateTime(2024, 1, 1, 0, 0, 0, 0), f3.mtime)
    requires Earlier(f3.mtime, DateTime(2024, 3, 1, 0, 0, 0, 0))
    ensures MakePost(f1).date == DateTime(2024, 1, 1, 0, 0, 0, 0)
    ensures MakePost(f2).date == DateTime(2024, 3, 1, 0, 0, 0, 0)
    ensures MakePost(f3).date == f3.mtime
    ensures SortNewestFirst([MakePost(f1), MakePost(f2), MakePost(f3)]) == [MakePost(f2), MakePost(f3), MakePost(f1)]
  {
    ThreeFileDates(f1, f2, f3);
    SortThree(MakePost(f1), MakePost(f2), MakePost(f3));
  }

}
