/**
 * The analytics log reader of log_reader.py: it counts the queries logged since the offset
 * it saved last time, saves the new offset and remembers how many characters it read.
 * The two files are the fields of a `LogFiles` object; a missing file is `None`.
 */
module LogReader {
  import opened Base
  import opened PyText

  // ---------------------------------------------------------------------------------
  // Reading lines from an offset
  // ---------------------------------------------------------------------------------

  /**
   * Where `readline()` stops when the file position is `pos`: just past the first `'\n'`
   * at or after `pos`, or at the end of the text.
   */
  function LineEnd(log: string, pos: nat): (e: nat)
    requires pos <= |log|
    ensures pos <= e <= |log| && (pos < |log| ==> pos < e)
    decreases |log| - pos
  {
    if pos == |log| then pos
    else if log[pos] == '\n' then pos + 1
    else LineEnd(log, pos + 1)
  }

  /** The line read holds no `'\n'` before its last character, and ends one or the text. */
  lemma {:induction false} LineEndSpec(log: string, pos: nat)
    requires pos <= |log|
    ensures forall i :: pos <= i < LineEnd(log, pos) - 1 ==> log[i] != '\n'
    ensures LineEnd(log, pos) == |log| || log[LineEnd(log, pos) - 1] == '\n'
    decreases |log| - pos
  {
    if pos < |log| && log[pos] != '\n' {
      LineEndSpec(log, pos + 1);
    }
  }

  /** `_unread_lines(offset)`: every line from `offset` on, each with `tell()` after it. */
  function UnreadLines(log: string, offset: nat): seq<(string, nat)>
    decreases |log| - offset
  {
    if |log| <= offset then []
    else
      var e := LineEnd(log, offset);
      [(log[offset..e], e)] + UnreadLines(log, e)
  }

  /** The lines put back together. */
  function Joined(ls: seq<(string, nat)>): string {
    if ls == [] then [] else ls[0].0 + Joined(ls[1..])
  }

  /** The same lines, read from a text that has `d` more characters in front. */
  function Shift(ls: seq<(string, nat)>, d: nat): (r: seq<(string, nat)>)
    ensures |r| == |ls|
  {
    if ls == [] then [] else [(ls[0].0, ls[0].1 + d)] + Shift(ls[1..], d)
  }

  lemma ShiftCons(x: (string, nat), r: seq<(string, nat)>, d: nat)
    ensures Shift([x] + r, d) == [(x.0, x.1 + d)] + Shift(r, d)
  {
    assert ([x] + r)[1..] == r;
  }

  /** What `readline()` can return: not empty, and a `'\n'` only as its last character. */
  predicate LineShaped(line: string) {
    line != [] && forall j :: 0 <= j < |line| - 1 ==> line[j] != '\n'
  }

  /** The lines read from `offset`, joined, give back the rest of the text. */
  lemma {:induction false} UnreadJoined(log: string, offset: nat)
    requires offset <= |log|
    ensures Joined(UnreadLines(log, offset)) == log[offset..]
    decreases |log| - offset
  {
    if offset < |log| {
      var e := LineEnd(log, offset);
      UnreadJoined(log, e);
      assert log[offset..] == log[offset..e] + log[e..];
    }
  }

  /** Every line read is shaped as `readline()` returns it, and all but the last end a line. */
  lemma {:induction false} UnreadShape(log: string, offset: nat)
    ensures forall i :: 0 <= i < |UnreadLines(log, offset)| ==> LineShaped(UnreadLines(log, offset)[i].0)
    ensures forall i :: 0 <= i < |UnreadLines(log, offset)| - 1 ==>
      EndsLine(UnreadLines(log, offset)[i].0)
    decreases |log| - offset
  {
    if offset < |log| {
      var e := LineEnd(log, offset);
      var ls, rest := UnreadLines(log, offset), UnreadLines(log, e);
      UnreadShape(log, e);
      LineEndSpec(log, offset);
      assert ls == [(log[offset..e], e)] + rest;
      if rest != [] {
        assert e < |log|;
      }
    }
  }

  predicate EndsLine(line: string) {
    line != [] && line[|line| - 1] == '\n'
  }

  /** Each line comes with the position just after it. */
  lemma {:induction false} UnreadPositions(log: string, offset: nat)
    ensures forall i :: 0 <= i < |UnreadLines(log, offset)| ==>
      UnreadLines(log, offset)[i].1 == offset + |Joined(UnreadLines(log, offset)[..i + 1])|
    decreases |log| - offset
  {
    if offset < |log| {
      var e := LineEnd(log, offset);
      var ls, rest := UnreadLines(log, offset), UnreadLines(log, e);
      UnreadPositions(log, e);
      assert ls == [(log[offset..e], e)] + rest;
      forall i | 0 <= i < |ls|
        ensures ls[i].1 == offset + |Joined(ls[..i + 1])|
      {
        assert ls[..i + 1] == [ls[0]] + rest[..i];
      }
    }
  }

  /** The position after the last line read is the end of the text. */
  lemma LastOffset(log: string, offset: nat)
    requires offset < |log|
    ensures UnreadLines(log, offset) != []
    ensures UnreadLines(log, offset)[|UnreadLines(log, offset)| - 1].1 == |log|
  {
    var ls := UnreadLines(log, offset);
    UnreadJoined(log, offset);
    UnreadPositions(log, offset);
    assert ls[..|ls|] == ls;
  }

  /** Reading from inside the appended part of `a + b` reads `b` alone. */
  lemma {:induction false} LinesAppend(a: string, b: string, k: nat)
    requires k <= |b|
    ensures UnreadLines(a + b, |a| + k) == Shift(UnreadLines(b, k), |a|)
    decreases |b| - k
  {
    if k < |b| {
      LineEndAppend(a, b, k);
      var e := LineEnd(b, k);
      LinesAppend(a, b, e);
      assert (a + b)[|a| + k..|a| + e] == b[k..e];
      ReadStep(a + b, |a| + k);
      ReadStep(b, k);
      ShiftCons((b[k..e], e), UnreadLines(b, e), |a|);
    }
  }

  lemma {:induction false} LineEndAppend(a: string, b: string, k: nat)
    requires k <= |b|
    ensures LineEnd(a + b, |a| + k) == |a| + LineEnd(b, k)
    decreases |b| - k
  {
    if k < |b| && b[k] != '\n' {
      LineEndAppend(a, b, k + 1);
    }
  }

  /** The queries read from the end of `a` on in `a + b` are those of `b`. */
  lemma QueriesAfter(a: string, b: string)
    ensures Queries(UnreadLines(a + b, |a|)) == Queries(UnreadLines(b, 0))
  {
    LinesAppend(a, b, 0);
    QueriesShift(UnreadLines(b, 0), |a|);
  }

  /** A text ending with `'\n'` does not let a line run on into what is appended to it. */
  lemma {:induction false} LineEndPrefix(a: string, b: string, p: nat)
    requires p < |a| && a[|a| - 1] == '\n'
    ensures LineEnd(a + b, p) == LineEnd(a, p)
    decreases |a| - p
  {
    if a[p] != '\n' {
      LineEndPrefix(a, b, p + 1);
    }
  }

  /** The lines of `a + b` are those of `a`, then those of `b`, when `a` ends a line. */
  lemma {:induction false} LinesConcat(a: string, b: string, p: nat)
    requires p <= |a| && (a == [] || a[|a| - 1] == '\n')
    ensures UnreadLines(a + b, p) == UnreadLines(a, p) + Shift(UnreadLines(b, 0), |a|)
    decreases |a| - p
  {
    if p == |a| {
      LinesAppend(a, b, 0);
    } else {
      LineEndPrefix(a, b, p);
      var e := LineEnd(a, p);
      LinesConcat(a, b, e);
      assert (a + b)[p..e] == a[p..e];
      ReadStep(a + b, p);
      ReadStep(a, p);
      ConsConcat((a[p..e], e), UnreadLines(a, e), Shift(UnreadLines(b, 0), |a|));
    }
  }

  // ---------------------------------------------------------------------------------
  // Queries and their counts
  // ---------------------------------------------------------------------------------

  /** `line.rsplit(" - ", 1)[-1].strip()`: the query logged on a line. */
  function Query(line: string): string {
    Strip(AfterLastSep(line))
  }

  /** The text of each line, without its position. */
  function Texts(ls: seq<(string, nat)>): (r: seq<string>)
    ensures |r| == |ls|
  {
    if ls == [] then [] else [ls[0].0] + Texts(ls[1..])
  }

  /** `f` applied to each element in turn. */
  function Each(f: string -> string, xs: seq<string>): (r: seq<string>)
    ensures |r| == |xs|
  {
    if xs == [] then [] else Each(f, xs[..|xs| - 1]) + [f(xs[|xs| - 1])]
  }

  /** The queries of the lines, in order. */
  function Queries(ls: seq<(string, nat)>): seq<string> {
    Each(Query, Texts(ls))
  }

  lemma {:induction false} TextsShift(ls: seq<(string, nat)>, d: nat)
    ensures Texts(Shift(ls, d)) == Texts(ls)
  {
    if ls != [] {
      TextsShift(ls[1..], d);
    }
  }

  lemma {:induction false} TextsAppend(a: seq<(string, nat)>, b: seq<(string, nat)>)
    ensures Texts(a + b) == Texts(a) + Texts(b)
  {
    if a == [] {
      assert a + b == b;
    } else {
      var c := a + b;
      assert c != [] && c[0] == a[0] && c[1..] == a[1..] + b;
      TextsAppend(a[1..], b);
      assert Texts(c) == [a[0].0] + Texts(c[1..]);
      assert Texts(a) == [a[0].0] + Texts(a[1..]);
    }
  }

  lemma {:induction false} EachAppend(f: string -> string, a: seq<string>, b: seq<string>)
    ensures Each(f, a + b) == Each(f, a) + Each(f, b)
  {
    if b == [] {
      assert a + b == a;
    } else {
      EachAppend(f, a, b[..|b| - 1]);
      assert (a + b)[..|a + b| - 1] == a + b[..|b| - 1];
    }
  }

  lemma QueriesShift(ls: seq<(string, nat)>, d: nat)
    ensures Queries(Shift(ls, d)) == Queries(ls)
  {
    TextsShift(ls, d);
  }

  lemma QueriesAppend(a: seq<(string, nat)>, b: seq<(string, nat)>)
    ensures Queries(a + b) == Queries(a) + Queries(b)
  {
    TextsAppend(a, b);
    EachAppend(Query, Texts(a), Texts(b));
  }

  /** Reading one more line from `pos` moves it from the unread lines to the lines read. */
  lemma LinesStep(log: string, offset: nat, pos: nat, e: nat, done: seq<(string, nat)>, done': seq<(string, nat)>)
    requires pos < |log| && e == LineEnd(log, pos) && done' == done + [(log[pos..e], e)]
    requires UnreadLines(log, offset) == done + UnreadLines(log, pos)
    ensures UnreadLines(log, offset) == done' + UnreadLines(log, e)
  {
    ReadStep(log, pos);
    MoveFront(UnreadLines(log, offset), done, (log[pos..e], e), UnreadLines(log, pos), UnreadLines(log, e));
  }

  lemma ReadStep(log: string, pos: nat)
    requires pos < |log|
    ensures UnreadLines(log, pos) == [(log[pos..LineEnd(log, pos)], LineEnd(log, pos))] + UnreadLines(log, LineEnd(log, pos))
  {
  }

  lemma ConsConcat<T>(x: T, r: seq<T>, t: seq<T>)
    ensures [x] + r + t == [x] + (r + t)
  {
  }

  lemma MoveFront<T>(all: seq<T>, done: seq<T>, x: T, rest: seq<T>, rest': seq<T>)
    requires all == done + rest && rest == [x] + rest'
    ensures all == (done + [x]) + rest'
  {
  }

  lemma {:induction false} EachSnoc(f: string -> string, done: seq<(string, nat)>, line: string, e: nat)
    ensures Each(f, Texts(done + [(line, e)])) == Each(f, Texts(done)) + [f(line)]
  {
    var l := [(line, e)];
    TextsAppend(done, l);
    assert Texts(l) == [line];
    assert (Texts(done) + [line])[..|done|] == Texts(done);
  }

  lemma QueriesSnoc(done: seq<(string, nat)>, line: string, e: nat)
    ensures Queries(done + [(line, e)]) == Queries(done) + [Query(line)]
  {
    EachSnoc(Query, done, line, e);
  }

  /**
   * The state of the loop of `unique_count()` after reading up to `pos`, for a query
   * extraction `f`: the lines read so far and the rest make up the unread lines, and the
   * counts are the first counts with the queries read so far tallied.
   */
  ghost predicate Counted(f: string -> string, log: string, offset: nat, pos: nat, done: seq<(string, nat)>,
                          c0: map<string, int>, counts: map<string, int>)
  {
    offset <= pos <= Max(offset, |log|)
    && UnreadLines(log, offset) == done + UnreadLines(log, pos)
    && counts == Tally(c0, Each(f, Texts(done)))
  }

  lemma CountedStep(f: string -> string, log: string, offset: nat, pos: nat, done: seq<(string, nat)>,
                    c0: map<string, int>, counts: map<string, int>,
                    e: nat, done': seq<(string, nat)>, counts': map<string, int>)
    requires Counted(f, log, offset, pos, done, c0, counts) && pos < |log|
    requires e == LineEnd(log, pos) && done' == done + [(log[pos..e], e)]
    requires counts' == counts[f(log[pos..e]) := Count(counts, f(log[pos..e])) + 1]
    ensures Counted(f, log, offset, e, done', c0, counts')
  {
    var line := log[pos..e];
    LinesStep(log, offset, pos, e, done, done');
    EachSnoc(f, done, line, e);
    var qs := Each(f, Texts(done));
    TallySnoc(c0, qs, f(line));
    assert Each(f, Texts(done')) == qs + [f(line)];
    assert counts' == Tally(c0, qs + [f(line)]);
  }

  lemma CountedEnd(f: string -> string, log: string, offset: nat, pos: nat, done: seq<(string, nat)>,
                   c0: map<string, int>, counts: map<string, int>)
    requires Counted(f, log, offset, pos, done, c0, counts) && |log| <= pos
    ensures counts == Tally(c0, Each(f, Texts(UnreadLines(log, offset)))) && pos == Max(offset, |log|)
  {
    assert done + UnreadLines(log, pos) == done;
  }

  // ---------------------------------------------------------------------------------
  // The offset file
  // ---------------------------------------------------------------------------------

  /**
   * `_get_log_offset()` on the offset file's text: 0 when there is no file or when
   * `int(text.strip())` raises `ValueError`.
   */
  function OffsetOf(text: Option<string>): (r: int)
    ensures text.None? ==> r == 0
    ensures text.Some? && ParseInt(Strip(text.value)).None? ==> r == 0
    ensures text.Some? && ParseInt(Strip(text.value)).Some? ==> r == ParseInt(Strip(text.value)).value
  {
    match text
    case None => 0
    case Some(t) => ParseInt(Strip(t)).GetOr(0)
  }

  /** What `_set_log_offset(n)` writes, `_get_log_offset()` reads back. */
  lemma OffsetRoundTrip(n: nat)
    ensures OffsetOf(Some(NatToString(n))) == n
  {
    NatRoundTrip(n);
  }

  // ---------------------------------------------------------------------------------
  // One call of unique_count
  // ---------------------------------------------------------------------------------

  /** What one successful `unique_count()` leaves behind. */
  datatype Pass = Pass(counts: map<string, int>, offset: nat, bytesRead: nat)

  /**
   * One `unique_count()` from `offset`: every unread line tallied, the offset moved to the
   * end of the file (it stays put when it is already at or past the end), and the
   * characters in between counted as read.
   */
  function CountPass(counts: map<string, int>, log: string, offset: nat): (p: Pass)
    ensures p.offset == (if offset <= |log| then |log| else offset)
    ensures p.bytesRead == p.offset - offset
    ensures offset <= |log| ==> p.bytesRead == |log| - offset
  {
    var last := Max(offset, |log|);
    Pass(Tally(counts, Queries(UnreadLines(log, offset))), last, last - offset)
  }

  /** A call with nothing new in the log reads nothing and counts nothing. */
  lemma NothingNew(counts: map<string, int>, log: string, offset: nat)
    requires |log| <= offset
    ensures CountPass(counts, log, offset) == Pass(counts, offset, 0)
  {
  }

  /**
   * Counting the log in two calls, the second after more was appended, gives the counts of
   * one call over the whole log, provided the first call stopped at the end of a line.
   */
  lemma Incremental(counts: map<string, int>, a: string, b: string)
    requires a == [] || a[|a| - 1] == '\n'
    ensures CountPass(counts, a, 0).offset == |a|
    ensures CountPass(CountPass(counts, a, 0).counts, a + b, |a|)
      == Pass(CountPass(counts, a + b, 0).counts, |a + b|, |b|)
  {
    LinesAppend(a, b, 0);
    LinesConcat(a, b, 0);
    QueriesShift(UnreadLines(b, 0), |a|);
    QueriesAppend(UnreadLines(a, 0), Shift(UnreadLines(b, 0), |a|));
    TallyAppend(counts, Queries(UnreadLines(a, 0)), Queries(UnreadLines(b, 0)));
  }

  // ---------------------------------------------------------------------------------
  // Logs written by the analytics logger
  // ---------------------------------------------------------------------------------

  /** A line as the analytics logger writes it: a timestamp, the logger's fields, the query. */
  function Entry(time: string, q: string): string {
    time + " - analytics - INFO" + Sep + q + "\n"
  }

  /** Lines written one after the other. */
  function Entries(times: seq<string>, qs: seq<string>): string
    requires |times| == |qs|
  {
    if qs == [] then [] else Entry(times[0], qs[0]) + Entries(times[1..], qs[1..])
  }

  predicate NoNewline(s: string) {
    forall i :: 0 <= i < |s| ==> s[i] != '\n'
  }

  predicate NoSpace(s: string) {
    forall i :: 0 <= i < |s| ==> !IsSpace(s[i])
  }

  /** The query read back from a logged line is the query logged, when it holds no whitespace. */
  lemma QueryOfEntry(time: string, q: string)
    requires NoSpace(q)
    ensures Query(Entry(time, q)) == q
  {
    var s := Entry(time, q);
    var n := |time + " - analytics - INFO"|;
    EntrySeps(time, q);
    LastSepSpec(s, |s| - |Sep|);
    assert LastSepAtOrBefore(s, |s| - |Sep|) == Some(n);
    assert AfterLastSep(s) == q + "\n";
    StripNewline(q);
  }

  /** The last `" - "` of a logged line is the one in front of the query. */
  lemma EntrySeps(time: string, q: string)
    requires NoSpace(q)
    ensures var s, n := Entry(time, q), |time + " - analytics - INFO"|;
      n + |Sep| + |q| + 1 == |s| && s[n + |Sep|..] == q + "\n"
      && SepAt(s, n) && forall j :: n < j ==> !SepAt(s, j)
  {
    var s := Entry(time, q);
    var p := time + " - analytics - INFO";
    var n := |p|;
    var t := q + "\n";
    assert s == p + Sep + t;
    assert s[n..n + |Sep|] == Sep;
    assert s[n + |Sep|..] == t;
    forall j | n < j
      ensures !SepAt(s, j)
    {
      if j + |Sep| <= |s| {
        if j == n + 1 {
          assert s[j] == '-';
        } else if j == n + 2 {
          assert s[j + 2] == t[1];
        } else {
          assert s[j] == q[j - n - 3];
        }
        NotSepAt(s, j);
      }
    }
  }

  lemma NotSepAt(s: string, j: nat)
    requires j + |Sep| <= |s| && (s[j] != ' ' || s[j + 1] != '-' || s[j + 2] != ' ')
    ensures !SepAt(s, j)
  {
    assert s[j..j + |Sep|][0] == s[j] && s[j..j + |Sep|][1] == s[j + 1] && s[j..j + |Sep|][2] == s[j + 2];
  }

  /** `(q + "\n").strip()` is `q` when `q` has no whitespace. */
  lemma StripNewline(q: string)
    requires NoSpace(q)
    ensures Strip(q + "\n") == q
  {
    RStripKeeps(q);
    if q == [] {
      assert q + "\n" == "\n" && IsSpace('\n') && "\n"[1..] == [];
      assert LStrip("\n") == [];
    } else {
      LStripKeeps(q + "\n");
      assert (q + "\n")[..|q|] == q;
    }
  }

  /** The only line end of a logged line is its last character. */
  lemma EntryLine(time: string, q: string)
    requires NoNewline(time) && NoSpace(q)
    ensures var s := Entry(time, q); s != [] && s[|s| - 1] == '\n' && NoNewline(s[..|s| - 1])
  {
    var s := Entry(time, q);
    var m := " - analytics - INFO" + Sep;
    assert s[..|s| - 1] == time + m + q;
    forall i | 0 <= i < |m| ensures m[i] != '\n' { }
  }

  /** Reading a single logged line with more text behind it. */
  lemma {:induction false} OneLine(a: string)
    requires a != [] && a[|a| - 1] == '\n' && NoNewline(a[..|a| - 1])
    ensures UnreadLines(a, 0) == [(a, |a|)]
  {
    LineEndSpec(a, 0);
    assert a[0..|a|] == a;
  }

  /** The queries read from a whole log of logged lines are the queries logged, in order. */
  lemma {:induction false} EntriesQueries(times: seq<string>, qs: seq<string>)
    requires |times| == |qs|
    requires forall i :: 0 <= i < |qs| ==> NoNewline(times[i]) && NoSpace(qs[i])
    ensures Queries(UnreadLines(Entries(times, qs), 0)) == qs
  {
    if qs != [] {
      var a, b := Entry(times[0], qs[0]), Entries(times[1..], qs[1..]);
      EntriesQueries(times[1..], qs[1..]);
      EntryLine(times[0], qs[0]);
      QueryOfEntry(times[0], qs[0]);
      QueriesOfLines(a, b);
      assert Entries(times, qs) == a + b;
      assert qs == [qs[0]] + qs[1..];
    }
  }

  /** A whole line in front of a text adds its query in front of the text's queries. */
  lemma QueriesOfLines(a: string, b: string)
    requires a != [] && a[|a| - 1] == '\n' && NoNewline(a[..|a| - 1])
    ensures Queries(UnreadLines(a + b, 0)) == [Query(a)] + Queries(UnreadLines(b, 0))
  {
    OneLine(a);
    LinesConcat(a, b, 0);
    QueriesAppend(UnreadLines(a, 0), Shift(UnreadLines(b, 0), |a|));
    QueriesShift(UnreadLines(b, 0), |a|);
    QueriesSnoc([], a, |a|);
    assert [] + [(a, |a|)] == [(a, |a|)];
  }

  // ---------------------------------------------------------------------------------
  // The reader
  // ---------------------------------------------------------------------------------

  /** The log file and the offset file, each `None` while it does not exist. */
  class LogFiles {
    var log: Option<string>
    var offsetText: Option<string>

    constructor (log: Option<string>, offsetText: Option<string>)
      ensures this.log == log && this.offsetText == offsetText
    {
      this.log := log;
      this.offsetText := offsetText;
    }
  }

  class AnalyticsLogReader {
    const files: LogFiles
    var bytesRead: int
    var counts: map<string, int>

    /** `AnalyticsLogReader(log_file_path, log_offset_file_path)`. */
    constructor (files: LogFiles)
      ensures this.files == files && bytesRead == 0 && counts == map[]
    {
      this.files := files;
      bytesRead := 0;
      counts := map[];
    }

    /** `_get_log_offset()`. */
    function GetLogOffset(): int
      reads files
    {
      OffsetOf(files.offsetText)
    }

    /** `_set_log_offset(offset)`: the offset file now holds `str(offset)`. */
    method SetLogOffset(offset: nat)
      modifies files`offsetText
      ensures files.offsetText == Some(NatToString(offset))
      ensures GetLogOffset() == offset
    {
      files.offsetText := Some(NatToString(offset));
      OffsetRoundTrip(offset);
    }

    /**
     * `unique_count()`. It returns `None` where Python raises: when the log file does not
     * exist, and when the saved offset is negative (`seek` refuses it); then nothing changes.
     * Otherwise every unread line is tallied, the offset file holds the new offset and
     * `bytes_read` the distance moved.
     */
    method UniqueCount() returns (r: Option<map<string, int>>)
      modifies this`counts, this`bytesRead, files`offsetText
      ensures old(files.log).None? || old(GetLogOffset()) < 0 ==>
        r.None? && counts == old(counts) && bytesRead == old(bytesRead) && files.offsetText == old(files.offsetText)
      ensures old(files.log).Some? && old(GetLogOffset()) >= 0 ==>
        var p := CountPass(old(counts), old(files.log).value, old(GetLogOffset()));
        r == Some(counts) && counts == p.counts && bytesRead == p.bytesRead
        && files.offsetText == Some(NatToString(p.offset)) && GetLogOffset() == p.offset
    {
      var offset := GetLogOffset();
      if files.log.None? || offset < 0 {
        return None;
      }
      var lastOffset := CountLines(files.log.value, offset, Query);
      SetLogOffset(lastOffset);
      bytesRead := lastOffset - offset;
      r := Some(counts);
    }

    /**
     * The loop of `unique_count()` over `_unread_lines(offset)`: the query `extract(line)`
     * of each line read is tallied and the position after the line becomes `last_offset`.
     * `unique_count()` extracts with `Query`.
     */
    method CountLines(log: string, offset: nat, extract: string -> string) returns (lastOffset: nat)
      modifies this`counts
      ensures counts == Tally(old(counts), Each(extract, Texts(UnreadLines(log, offset))))
      ensures lastOffset == Max(offset, |log|)
    {
      lastOffset := offset;
      var pos: nat := offset;
      ghost var done := [];
      while pos < |log|
        invariant Counted(extract, log, offset, pos, done, old(counts), counts) && lastOffset == pos
        decreases |log| - pos
      {
        var e := LineEnd(log, pos);
        var line := log[pos..e];
        var query := extract(line);
        ghost var done' := done + [(line, e)];
        var counts' := counts[query := Count(counts, query) + 1];
        CountedStep(extract, log, offset, pos, done, old(counts), counts, e, done', counts');
        counts := counts';
        done := done';
        lastOffset := e;
        pos := e;
      }
      CountedEnd(extract, log, offset, pos, done, old(counts), counts);
    }
  }
}

/** The scenario of the log reader's own test, for any two segments of logged lines. */
module LogReaderScenario {
  import opened Base
  import opened PyText
  import opened LogReader

  /** Timestamps without a line end, queries without whitespace. */
  predicate WellLogged(times: seq<string>, qs: seq<string>) {
    |times| == |qs| && forall i :: 0 <= i < |qs| ==> NoNewline(times[i]) && NoSpace(qs[i])
  }

  /** The queries of a whole log. */
  function LogQueries(log: string): seq<string> {
    Queries(UnreadLines(log, 0))
  }

  /** The two passes over two segments of a log, on the model's functions. */
  lemma SegmentPasses(seg1: string, seg2: string)
    ensures CountPass(map[], seg1, 0) == Pass(Tally(map[], LogQueries(seg1)), |seg1|, |seg1|)
    ensures CountPass(Tally(map[], LogQueries(seg1)), seg1 + seg2, |seg1|)
      == Pass(Tally(map[], LogQueries(seg1) + LogQueries(seg2)), |seg1| + |seg2|, |seg2|)
    ensures CountPass(Tally(map[], LogQueries(seg1) + LogQueries(seg2)), seg1 + seg2, |seg1| + |seg2|)
      == Pass(Tally(map[], LogQueries(seg1) + LogQueries(seg2)), |seg1| + |seg2|, 0)
  {
    NothingNew(Tally(map[], LogQueries(seg1) + LogQueries(seg2)), seg1 + seg2, |seg1| + |seg2|);
    QueriesAfter(seg1, seg2);
    TallyAppend(map[], LogQueries(seg1), LogQueries(seg2));
  }

  /**
   * A reader over a log holding a first segment counts its queries and saves the segment's
   * length as the offset; after a second segment is appended it adds the queries of the
   * second segment to the counts and reads only that segment; a third call reads nothing
   * and returns the same counts.
   */
  method TwoSegments(seg1: string, seg2: string)
    returns (r1: Option<map<string, int>>, r2: Option<map<string, int>>, r3: Option<map<string, int>>,
             offsets: seq<int>, bytes: seq<int>)
    ensures r1 == Some(Tally(map[], LogQueries(seg1)))
    ensures r2 == Some(Tally(map[], LogQueries(seg1) + LogQueries(seg2))) && r3 == r2
    ensures offsets == [|seg1|, |seg1| + |seg2|, |seg1| + |seg2|] && bytes == [|seg1|, |seg2|, 0]
  {
    SegmentPasses(seg1, seg2);
    var files := new LogFiles(Some(seg1), None);
    var reader := new AnalyticsLogReader(files);
    r1 := reader.UniqueCount();
    var o1, b1 := reader.GetLogOffset(), reader.bytesRead;
    files.log := Some(seg1 + seg2);
    r2 := reader.UniqueCount();
    var o2, b2 := reader.GetLogOffset(), reader.bytesRead;
    r3 := reader.UniqueCount();
    offsets := [o1, o2, reader.GetLogOffset()];
    bytes := [b1, b2, reader.bytesRead];
  }

  /** With the analytics logger's lines, the counts are those of the queries it logged. */
  lemma LoggedSegments(times1: seq<string>, qs1: seq<string>, times2: seq<string>, qs2: seq<string>)
    requires WellLogged(times1, qs1) && WellLogged(times2, qs2)
    ensures LogQueries(Entries(times1, qs1)) + LogQueries(Entries(times2, qs2)) == qs1 + qs2
    ensures forall q :: Count(Tally(map[], qs1 + qs2), q) == multiset(qs1)[q] + multiset(qs2)[q]
  {
    EntriesQueries(times1, qs1);
    EntriesQueries(times2, qs2);
    TallyCounts(map[], qs1 + qs2);
  }

  /**
   * The third `unique_count` of the two-segment scenario still returns every query
   * counted so far, so it equals `dict()` only when neither segment logged a query.
   */
  lemma ThirdPassNotEmpty(times1: seq<string>, qs1: seq<string>, times2: seq<string>, qs2: seq<string>)
    requires WellLogged(times1, qs1) && WellLogged(times2, qs2)
    ensures var seg1, seg2 := Entries(times1, qs1), Entries(times2, qs2);
      Tally(map[], LogQueries(seg1) + LogQueries(seg2)) == map[] <==> qs1 + qs2 == []
  {
    LoggedSegments(times1, qs1, times2, qs2);
    if qs1 + qs2 != [] {
      var q := (qs1 + qs2)[0];
      assert q in multiset(qs1) + multiset(qs2);
      assert Count(Tally(map[], qs1 + qs2), q) > 0;
    } else {
      TallyCounts(map[], []);
    }
  }
}
