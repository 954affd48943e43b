/**
 * The pure decisions of the diary editor:
 * - which date strings it accepts;
 * - how it trims and counts words;
 * - the key of the local draft;
 * - when the editor is dirty;
 * - the elapsed-time label;
 * - the guard on switching dates;
 * - how a loaded day is resolved between the database row and the local draft;
 * - what a save sends and how it resets the baseline.
 *
 * Network reads, local storage, `confirm` and the clock are inputs.
 */
module DiaryEditor {

  import opened Wrappers

  // ---------------------------------------------------------------------
  // Date strings
  // ---------------------------------------------------------------------

  /** `\d` without the `u` flag: an ASCII digit. */
  predicate IsDigit(c: char) { '0' <= c <= '9' }

  predicate AllDigits(s: string) { forall i :: 0 <= i < |s| ==> IsDigit(s[i]) }

  /** `/^\d{4}-\d{2}-\d{2}$/.test(s)`: the shape alone, position by position. */
  predicate IsValidDateStr(s: string) {
    && |s| == 10
    && s[4] == '-' && s[7] == '-'
    && forall i :: 0 <= i < 10 && i != 4 && i != 7 ==> IsDigit(s[i])
  }

  /** Four, two and two characters joined by dashes form a valid date string exactly when all of them are digits. */
  lemma DateStrCompose(y: string, m: string, d: string)
    requires |y| == 4 && |m| == 2 && |d| == 2
    ensures IsValidDateStr(y + "-" + m + "-" + d) <==> AllDigits(y) && AllDigits(m) && AllDigits(d)
  {
    var s := y + "-" + m + "-" + d;
    assert forall i :: 0 <= i < 4 ==> s[i] == y[i];
    assert forall i :: 0 <= i < 2 ==> s[5 + i] == m[i] && s[8 + i] == d[i];
    assert s[4] == '-' && s[7] == '-';
  }

  /** Every valid date string splits into such parts. */
  lemma DateStrDecompose(s: string)
    requires IsValidDateStr(s)
    ensures s == s[..4] + "-" + s[5..7] + "-" + s[8..]
    ensures AllDigits(s[..4]) && AllDigits(s[5..7]) && AllDigits(s[8..])
  {
  }

  /** The check is on the shape only: month 13 and day 45 pass, a one-digit month does not. */
  lemma DateStrNotRangeChecked()
    ensures IsValidDateStr("2024-13-45")
    ensures !IsValidDateStr("2024-1-05")
  {
    assert "2024-1-05"[4] == '-' && |"2024-1-05"| == 9;
  }

  /**
   * The initial date: the `date` query parameter when it is present,
   * non-empty and valid, otherwise today.
   */
  function InitialDate(query: Option<string>, today: string): (d: string)
    ensures IsValidDateStr(today) ==> IsValidDateStr(d)
    ensures query.Some? && IsValidDateStr(query.value) ==> d == query.value
    ensures !(query.Some? && IsValidDateStr(query.value)) ==> d == today
  {
    if query.Some? && query.value != "" && IsValidDateStr(query.value) then query.value else today
  }

  // ---------------------------------------------------------------------
  // White space, trim and word count
  // ---------------------------------------------------------------------

  /**
   * The characters JavaScript treats as white space, both in
   * `String.prototype.trim` and in the regular-expression class `\s`:
   * tab, the line terminators, vertical tab, form feed, space, no-break
   * space, the byte-order mark and the space separators.
   */
  predicate IsSpace(c: char) {
    || c == '\t' || c == '\n' || c == '\U{000B}' || c == '\U{000C}' || c == '\r'
    || c == ' ' || c == '\U{00A0}' || c == '\U{1680}'
    || ('\U{2000}' <= c <= '\U{200A}')
    || c == '\U{2028}' || c == '\U{2029}' || c == '\U{202F}' || c == '\U{205F}'
    || c == '\U{3000}' || c == '\U{FEFF}'
  }

  predicate AllSpace(s: string) { forall i :: 0 <= i < |s| ==> IsSpace(s[i]) }

  /** The first index at or after `i` that is not white space, or `|s|`. */
  function SkipSpace(s: string, i: nat): (j: nat)
    requires i <= |s|
    ensures i <= j <= |s|
    ensures forall k :: i <= k < j ==> IsSpace(s[k])
    ensures j < |s| ==> !IsSpace(s[j])
    decreases |s| - i
  {
    if i == |s| || !IsSpace(s[i]) then i else SkipSpace(s, i + 1)
  }

  /** The first index at or after `i` that is white space, or `|s|`. */
  function SkipWord(s: string, i: nat): (j: nat)
    requires i <= |s|
    ensures i <= j <= |s|
    ensures forall k :: i <= k < j ==> !IsSpace(s[k])
    ensures j < |s| ==> IsSpace(s[j])
    decreases |s| - i
  {
    if i == |s| || IsSpace(s[i]) then i else SkipWord(s, i + 1)
  }

  /** Scanning back from `j`: the index just past the last non-space character before `j`, or 0. */
  function TrimEndFrom(s: string, j: nat): (e: nat)
    requires j <= |s|
    ensures e <= j
    ensures forall k :: e <= k < j ==> IsSpace(s[k])
    ensures e > 0 ==> !IsSpace(s[e - 1])
    decreases j
  {
    if j == 0 || !IsSpace(s[j - 1]) then j else TrimEndFrom(s, j - 1)
  }

  /** `s.trim()`: the string without its leading and trailing white space. */
  function Trim(s: string): (t: string)
    ensures t == [] <==> AllSpace(s)
    ensures t != [] ==> !IsSpace(t[0]) && !IsSpace(t[|t| - 1])
    ensures t != [] ==> t == s[SkipSpace(s, 0)..TrimEndFrom(s, |s|)]
  {
    var a := SkipSpace(s, 0);
    var e := TrimEndFrom(s, |s|);
    if a < e then s[a..e] else []
  }

  /** Trimming twice is trimming once. */
  lemma TrimIdempotent(s: string)
    ensures Trim(Trim(s)) == Trim(s)
  {
    var t := Trim(s);
    if t != [] {
      assert SkipSpace(t, 0) == 0;
      assert TrimEndFrom(t, |t|) == |t|;
    }
  }

  /**
   * `s.split(/\s+/)` from index `i`: the pieces between maximal white-space
   * runs. A leading or trailing run gives an empty first or last piece.
   */
  function SplitFrom(s: string, i: nat): (pieces: seq<string>)
    requires i <= |s|
    ensures |pieces| >= 1
    decreases |s| - i
  {
    var k := SkipWord(s, i);
    if k == |s| then [s[i..]]
    else
      var j := SkipSpace(s, k);
      assert k < j;
      [s[i..k]] + SplitFrom(s, j)
  }

  /** `.filter(Boolean)` on strings: the non-empty pieces, in order. */
  function NonEmpty(pieces: seq<string>): (r: seq<string>)
    ensures |r| <= |pieces|
    ensures forall i :: 0 <= i < |r| ==> r[i] != []
  {
    if |pieces| == 0 then []
    else (if pieces[0] == [] then [] else [pieces[0]]) + NonEmpty(pieces[1..])
  }

  /** The body's `wordCount` as written: trim, then 0 if empty, else the non-empty pieces of the split. */
  function WordCountOf(body: string): nat {
    var s := Trim(body);
    if s == [] then 0 else |NonEmpty(SplitFrom(s, 0))|
  }

  /**
   * The word starts in `s[i..]`: positions holding a non-space character
   * preceded by white space, or by nothing when `prevSpace` says so.
   */
  function RunsFrom(s: string, i: nat, prevSpace: bool): nat
    requires i <= |s|
    decreases |s| - i
  {
    if i == |s| then 0
    else (if prevSpace && !IsSpace(s[i]) then 1 else 0) + RunsFrom(s, i + 1, IsSpace(s[i]))
  }

  /** The number of maximal runs of non-space characters in `s`. */
  function RunCount(s: string): nat {
    RunsFrom(s, 0, true)
  }

  /** A stretch of non-space characters contributes at most its first position. */
  lemma {:induction false} RunsOverWord(s: string, i: nat, k: nat, prevSpace: bool)
    requires i < k <= |s|
    requires forall m :: i <= m < k ==> !IsSpace(s[m])
    ensures RunsFrom(s, i, prevSpace) == (if prevSpace then 1 else 0) + RunsFrom(s, k, false)
    decreases k - i
  {
    if i + 1 < k {
      RunsOverWord(s, i + 1, k, false);
    }
  }

  /** A stretch of white space contributes nothing and leaves the next position a possible start. */
  lemma {:induction false} RunsOverSpace(s: string, k: nat, j: nat, prevSpace: bool)
    requires k < j <= |s|
    requires forall m :: k <= m < j ==> IsSpace(s[m])
    ensures RunsFrom(s, k, prevSpace) == RunsFrom(s, j, true)
    decreases j - k
  {
    if k + 1 < j {
      RunsOverSpace(s, k + 1, j, true);
    }
  }

  /** Trailing white space holds no word start. */
  lemma {:induction false} RunsInSpace(s: string, i: nat, prevSpace: bool)
    requires i <= |s|
    requires forall m :: i <= m < |s| ==> IsSpace(s[m])
    ensures RunsFrom(s, i, prevSpace) == 0
    decreases |s| - i
  {
    if i < |s| {
      RunsInSpace(s, i + 1, true);
    }
  }

  /** The non-empty pieces of the split are exactly the runs. */
  lemma {:induction false} SplitCountsRuns(s: string, i: nat)
    requires i <= |s|
    ensures |NonEmpty(SplitFrom(s, i))| == RunsFrom(s, i, true)
    decreases |s| - i
  {
    var k := SkipWord(s, i);
    if k == |s| {
      assert SplitFrom(s, i) == [s[i..]];
      if i < k {
        RunsOverWord(s, i, k, true);
        assert s[i..] != [];
        assert NonEmpty([s[i..]]) == [s[i..]] + NonEmpty([]);
      } else {
        assert NonEmpty([s[i..]]) == [] + NonEmpty([]);
      }
    } else {
      var j := SkipSpace(s, k);
      var rest := SplitFrom(s, j);
      assert SplitFrom(s, i) == [s[i..k]] + rest;
      assert ([s[i..k]] + rest)[1..] == rest;
      SplitCountsRuns(s, j);
      RunsOverSpace(s, k, j, i == k);
      if i < k {
        RunsOverWord(s, i, k, true);
      }
    }
  }

  /** Counting a slice `s[a..e]` whose tail beyond `e` is white space is counting in `s` from `a`. */
  lemma {:induction false} RunsOfSlice(s: string, a: nat, e: nat, i: nat, prevSpace: bool)
    requires a + i <= e <= |s|
    requires forall m :: e <= m < |s| ==> IsSpace(s[m])
    ensures RunsFrom(s, a + i, prevSpace) == RunsFrom(s[a..e], i, prevSpace)
    decreases e - a - i
  {
    if a + i == e {
      RunsInSpace(s, e, prevSpace);
    } else {
      assert s[a..e][i] == s[a + i];
      RunsOfSlice(s, a, e, i + 1, IsSpace(s[a + i]));
    }
  }

  /** Trimming keeps every word. */
  lemma TrimKeepsRuns(s: string)
    ensures RunCount(Trim(s)) == RunCount(s)
  {
    var t := Trim(s);
    if t == [] {
      RunsInSpace(s, 0, true);
    } else {
      var a := SkipSpace(s, 0);
      var e := TrimEndFrom(s, |s|);
      RunsOfSlice(s, a, e, 0, true);
      if 0 < a {
        RunsOverSpace(s, 0, a, true);
      }
    }
  }

  /**
   * The `wordCount` memo, counted in one pass: it agrees with trimming,
   * splitting on white-space runs and dropping empty pieces, it is the
   * number of maximal non-space runs of the body, and it is 0 exactly for
   * an empty or all-white-space body.
   */
  method WordCount(body: string) returns (n: nat)
    ensures n == WordCountOf(body)
    ensures n == RunCount(body)
    ensures n == 0 <==> AllSpace(body)
  {
    var s := Trim(body);
    TrimKeepsRuns(body);
    if s == [] {
      RunsInSpace(body, 0, true);
      return 0;
    }
    n := 0;
    var i := 0;
    var prevSpace := true;
    while i < |s|
      invariant 0 <= i <= |s|
      invariant n + RunsFrom(s, i, prevSpace) == RunsFrom(s, 0, true)
    {
      if prevSpace && !IsSpace(s[i]) {
        n := n + 1;
      }
      prevSpace := IsSpace(s[i]);
      i := i + 1;
    }
    SplitCountsRuns(s, 0);
  }

  // ---------------------------------------------------------------------
  // Draft key and dirty flag
  // ---------------------------------------------------------------------

  const DraftPrefix: string := "draft:diary:"

  /** `draftKey`: none without a (non-empty) user id, else `draft:diary:{user}:{date}`. */
  function DraftKey(userId: Option<string>, date: string): (k: Option<string>)
    ensures k.None? <==> userId.None? || userId.value == ""
    ensures k.Some? ==> k.value == DraftPrefix + userId.value + ":" + date
  {
    if userId.None? || userId.value == "" then None
    else Some(DraftPrefix + userId.value + ":" + date)
  }

  /** Drafts of different users or of different dates (of one length) never share a key. */
  lemma DraftKeyInjective(u1: Option<string>, d1: string, u2: Option<string>, d2: string)
    requires |d1| == |d2|
    requires DraftKey(u1, d1).Some? && DraftKey(u1, d1) == DraftKey(u2, d2)
    ensures u1 == u2 && d1 == d2
  {
    var k := DraftKey(u1, d1).value;
    var n := |DraftPrefix|;
    assert |u1.value| == |u2.value|;
    assert u1.value == k[n..n + |u1.value|];
    assert u2.value == k[n..n + |u2.value|];
    assert d1 == k[|k| - |d1|..];
    assert d2 == k[|k| - |d2|..];
  }

  /** The title and body shown in the editor, or the baseline they are compared with. */
  datatype Fields = Fields(title: string, body: string)

  const Blank: Fields := Fields("", "")

  /** `isDirty`: the title or the body differs from the baseline. */
  function IsDirty(current: Fields, baseline: Fields): (d: bool)
    ensures d <==> current.title != baseline.title || current.body != baseline.body
  {
    current != baseline
  }

  /**
   * `changeDate(next)`: the date selected afterwards. A dirty editor asks
   * first, and `confirmed` is the answer.
   */
  function ChangeDate(selected: string, next: string, dirty: bool, confirmed: bool): (d: string)
    ensures d == selected || d == next
    ensures !dirty ==> d == next
    ensures dirty && !confirmed ==> d == selected
  {
    if next == selected then selected
    else if dirty && !confirmed then selected
    else next
  }

  /** `onBack`: leave for the calendar, unless the editor is dirty and the question is declined. */
  function LeavesOnBack(dirty: bool, confirmed: bool): (leave: bool)
    ensures !dirty ==> leave
    ensures dirty ==> (leave <==> confirmed)
  {
    !(dirty && !confirmed)
  }

  /** Going back and switching to another date ask the same question and obey the same answer. */
  lemma BackAndChangeDateAgree(selected: string, next: string, dirty: bool, confirmed: bool)
    requires next != selected
    ensures LeavesOnBack(dirty, confirmed) <==> ChangeDate(selected, next, dirty, confirmed) == next
  {
  }

  // ---------------------------------------------------------------------
  // Elapsed label
  // ---------------------------------------------------------------------

  function DigitChar(d: nat): (c: char)
    requires d < 10
    ensures IsDigit(c)
  {
    (('0' as int) + d) as char
  }

  function DigitValue(c: char): (d: nat)
    requires IsDigit(c)
    ensures d < 10
  {
    (c as int) - ('0' as int)
  }

  /** `String(n)` for a natural number: its decimal digits without leading zeros. */
  function Decimal(n: nat): (r: string)
    ensures |r| >= 1 && AllDigits(r)
    ensures |r| > 1 ==> r[0] != '0'
    ensures n < 10 <==> |r| == 1
    ensures n < 100 ==> |r| <= 2
  {
    if n < 10 then [DigitChar(n)] else Decimal(n / 10) + [DigitChar(n % 10)]
  }

  /** The number a string of decimal digits denotes. */
  function DigitsValue(s: string): nat
    requires AllDigits(s)
  {
    if |s| == 0 then 0 else DigitsValue(s[..|s| - 1]) * 10 + DigitValue(s[|s| - 1])
  }

  /** Reading the decimal digits of `n` gives back `n`. */
  lemma {:induction false} DecimalRoundTrip(n: nat)
    ensures DigitsValue(Decimal(n)) == n
  {
    if n >= 10 {
      var r := Decimal(n);
      assert r[..|r| - 1] == Decimal(n / 10);
      DecimalRoundTrip(n / 10);
    }
  }

  /** A leading zero does not change the value. */
  lemma {:induction false} LeadingZero(s: string)
    requires AllDigits(s)
    ensures DigitsValue("0" + s) == DigitsValue(s)
  {
    if |s| > 0 {
      assert ("0" + s)[..|s|] == "0" + s[..|s| - 1];
      LeadingZero(s[..|s| - 1]);
    }
  }

  /** `str.padStart(2, "0")`: zeros in front up to length two. */
  function PadStart2(str: string): (r: string)
    ensures |str| <= 2 ==> |r| == 2
    ensures |str| >= 2 ==> r == str
    ensures |str| < 2 ==> r[2 - |str|..] == str && forall i :: 0 <= i < 2 - |str| ==> r[i] == '0'
  {
    if |str| >= 2 then str else if |str| == 1 then "0" + str else "00"
  }

  /** The seconds of a minute as two digits, zero-padded. */
  function TwoDigits(n: nat): (r: string)
    requires n < 60
    ensures |r| == 2 && AllDigits(r)
    ensures DigitsValue(r) == n
  {
    var d := Decimal(n);
    DecimalRoundTrip(n);
    if |d| < 2 then LeadingZero(d); PadStart2(d) else PadStart2(d)
  }

  /** The label's layout: minutes, `m `, two characters of seconds, `s`. */
  function LabelOf(minutes: string, seconds: string): (text: string)
    requires |seconds| == 2
    ensures |text| == |minutes| + 5
    ensures text[..|minutes|] == minutes
    ensures text[|minutes|..|minutes| + 2] == "m "
    ensures text[|minutes| + 2..|minutes| + 4] == seconds
    ensures text[|minutes| + 4] == 's'
  {
    minutes + "m " + seconds + "s"
  }

  /**
   * `elapsedLabel` for a non-negative number of seconds: the whole minutes,
   * `m `, the remaining seconds as two digits, then `s`.
   */
  function ElapsedLabel(sec: nat): (text: string)
    ensures |text| >= 6
    ensures text[|text| - 1] == 's'
    ensures text[|text| - 5..|text| - 3] == "m "
    ensures AllDigits(text[..|text| - 5]) && AllDigits(text[|text| - 3..|text| - 1])
    ensures |text| == 6 || text[0] != '0'
    ensures DigitsValue(text[..|text| - 5]) == sec / 60
    ensures DigitsValue(text[|text| - 3..|text| - 1]) == sec % 60
  {
    var minutes, seconds := Decimal(sec / 60), TwoDigits(sec % 60);
    DecimalRoundTrip(sec / 60);
    LabelParts(minutes, seconds);
    LabelOf(minutes, seconds)
  }

  /**
   * Reading a label back: decimal minutes without a leading zero before
   * `m `, then two digits of seconds below 60 before the final `s`. Any
   * other text is not a label.
   */
  function ParseElapsed(text: string): (sec: Option<nat>)
  {
    if |text| < 6 || text[|text| - 1] != 's' || text[|text| - 5..|text| - 3] != "m " then None
    else
      var minutes := text[..|text| - 5];
      var seconds := text[|text| - 3..|text| - 1];
      if AllDigits(minutes) && (|minutes| == 1 || minutes[0] != '0') && AllDigits(seconds) && DigitsValue(seconds) < 60
      then Some(60 * DigitsValue(minutes) + DigitsValue(seconds))
      else None
  }

  /** A label laid out from canonical digit strings reads back as their minutes and seconds. */
  lemma ParseLabel(minutes: string, seconds: string)
    requires |minutes| >= 1 && AllDigits(minutes) && (|minutes| == 1 || minutes[0] != '0')
    requires |seconds| == 2 && AllDigits(seconds) && DigitsValue(seconds) < 60
    ensures ParseElapsed(LabelOf(minutes, seconds)) == Some(60 * DigitsValue(minutes) + DigitsValue(seconds))
  {
    LabelParts(minutes, seconds);
  }

  /** The parts of a label, located from its end as `ParseElapsed` locates them. */
  lemma LabelParts(minutes: string, seconds: string)
    requires |seconds| == 2
    ensures var text := LabelOf(minutes, seconds);
      && |text| >= 5
      && text[..|text| - 5] == minutes
      && text[|text| - 5..|text| - 3] == "m "
      && text[|text| - 3..|text| - 1] == seconds
      && text[|text| - 1] == 's'
  {
    var text := LabelOf(minutes, seconds);
    assert |text| - 5 == |minutes|;
  }

  /** Seconds are carried into minutes: "0m 61s" is not a label, "1m 01s" is the label of 61 seconds. */
  lemma SecondsAreCarried()
    ensures ParseElapsed("0m 61s").None?
    ensures ElapsedLabel(61) == "1m 01s"
  {
    var t := "0m 61s";
    assert t[|t| - 3..|t| - 1] == "61" && t[..|t| - 5] == "0" && t[|t| - 5..|t| - 3] == "m ";
    assert DigitsValue("61") == 61;
    SixtyOneSecondsLabel();
  }

  /** 61 seconds show as one minute and one second, the seconds padded to two digits. */
  lemma SixtyOneSecondsLabel()
    ensures ElapsedLabel(61) == "1m 01s"
  {
    assert Decimal(1) == "1";
    assert TwoDigits(1) == "01";
    assert ElapsedLabel(61) == LabelOf("1", "01");
  }

  /** The label shows the elapsed seconds faithfully: reading it back gives them again. */
  lemma ElapsedLabelRoundTrip(sec: nat)
    ensures ParseElapsed(ElapsedLabel(sec)) == Some(sec)
  {
    MinutesAndSeconds(sec);
  }

  /** Whole minutes and the remaining seconds make up the total again. */
  lemma MinutesAndSeconds(sec: nat)
    ensures 60 * (sec / 60) + sec % 60 == sec
  {
  }

  // ---------------------------------------------------------------------
  // Loading a day
  // ---------------------------------------------------------------------

  /** JavaScript truthiness of an optional string: present and non-empty. */
  predicate Truthy(s: Option<string>) { s.Some? && s.value != "" }

  /** The `diary_entries` row of the user and date. */
  datatype DbEntry = DbEntry(id: string, title: Option<string>, body: Option<string>)

  /** The read of that row: an error, or at most one row. */
  datatype DbRead = ReadError | Read(row: Option<DbEntry>)

  /** A draft as parsed from local storage; either field may be missing. */
  datatype Draft = Draft(title: Option<string>, body: Option<string>)

  /** A row's fields with null read as empty. */
  function RowFields(e: DbEntry): Fields {
    Fields(e.title.GetOr(""), e.body.GetOr(""))
  }

  /** A draft's fields with missing ones read as empty. */
  function DraftFields(d: Draft): Fields {
    Fields(d.title.GetOr(""), d.body.GetOr(""))
  }

  /** The row counts when it is present with a non-empty id. */
  predicate HasRow(read: DbRead) {
    read.Read? && read.row.Some? && read.row.value.id != ""
  }

  /** What the load leaves behind: the error state, or the fields, the baseline and the existing id. */
  datatype LoadOutcome =
    | LoadFailed
    | Loaded(fields: Fields, baseline: Fields, existingId: Option<string>, draftRestored: bool)

  /**
   * The load of one day. `draft` is what local storage held (none when it
   * was missing or unreadable), and `useDraft` is the answer to the restore
   * question, asked only when a row exists and the draft has a body.
   */
  function Load(read: DbRead, draft: Option<Draft>, useDraft: bool): (o: LoadOutcome)
    ensures o.LoadFailed? <==> read.ReadError?
    ensures o.Loaded? ==> o.existingId == (if read.row.Some? then Some(read.row.value.id) else None)
    // a row is the baseline; its draft is restored only on request, and only if it has a body
    ensures HasRow(read) ==> o.baseline == RowFields(read.row.value)
    ensures HasRow(read) ==> (o.draftRestored <==> draft.Some? && Truthy(draft.value.body) && useDraft)
    // without a row the baseline is empty and any draft with content is restored
    ensures read.Read? && !HasRow(read) ==> o.baseline == Blank
    ensures read.Read? && !HasRow(read) ==>
      (o.draftRestored <==> draft.Some? && (Truthy(draft.value.title) || Truthy(draft.value.body)))
    ensures o.Loaded? && o.draftRestored ==> draft.Some? && o.fields == DraftFields(draft.value)
    ensures o.Loaded? && !o.draftRestored ==> o.fields == o.baseline
  {
    match read
    case ReadError => LoadFailed
    case Read(row) =>
      var existingId := if row.Some? then Some(row.value.id) else None;
      if HasRow(read) then
        var db := RowFields(row.value);
        if draft.Some? && Truthy(draft.value.body) && useDraft then
          Loaded(DraftFields(draft.value), db, existingId, true)
        else
          Loaded(db, db, existingId, false)
      else if draft.Some? && (Truthy(draft.value.title) || Truthy(draft.value.body)) then
        Loaded(DraftFields(draft.value), Blank, existingId, true)
      else
        Loaded(Blank, Blank, existingId, false)
  }

  /** A day loaded without restoring a draft starts clean. */
  lemma LoadedCleanUnlessRestored(read: DbRead, draft: Option<Draft>, useDraft: bool)
    requires Load(read, draft, useDraft).Loaded?
    requires !Load(read, draft, useDraft).draftRestored
    ensures !IsDirty(Load(read, draft, useDraft).fields, Load(read, draft, useDraft).baseline)
  {
  }

  /**
   * A draft restored over a row is compared with the row, so the editor is
   * dirty exactly when the draft differs from what is stored.
   */
  lemma RestoredOverRowDirtyIffDiffers(read: DbRead, draft: Option<Draft>, useDraft: bool)
    requires HasRow(read) && Load(read, draft, useDraft).draftRestored
    ensures var o := Load(read, draft, useDraft);
      IsDirty(o.fields, o.baseline) <==> DraftFields(draft.value) != RowFields(read.row.value)
  {
  }

  /** A draft restored on a day without a row is always dirty: it has content and the baseline is empty. */
  lemma RestoredWithoutRowIsDirty(read: DbRead, draft: Option<Draft>, useDraft: bool)
    requires read.Read? && !HasRow(read) && Load(read, draft, useDraft).draftRestored
    ensures var o := Load(read, draft, useDraft); IsDirty(o.fields, o.baseline)
  {
    var d := draft.value;
    assert Truthy(d.title) ==> DraftFields(d).title != "";
    assert Truthy(d.body) ==> DraftFields(d).body != "";
  }

  // ---------------------------------------------------------------------
  // Saving
  // ---------------------------------------------------------------------

  /** The row `save` upserts on `(user_id, entry_date)`. */
  datatype Upsert = Upsert(userId: string, entryDate: string, title: Option<string>, body: string)

  /** `title.trim() || null`. */
  function StoredTitle(title: string): (t: Option<string>)
    ensures t.None? <==> AllSpace(title)
    ensures t.Some? ==> t.value != [] && !IsSpace(t.value[0]) && !IsSpace(t.value[|t.value| - 1])
    ensures t.Some? ==> t.value == Trim(title)
  {
    var s := Trim(title);
    if s == [] then None else Some(s)
  }

  /**
   * What `save` sends: nothing when the body is blank or there is no user;
   * otherwise the trimmed title (or null) and the body as typed.
   */
  function SaveRequest(current: Fields, userId: Option<string>, date: string): (r: Option<Upsert>)
    ensures r.None? <==> AllSpace(current.body) || userId.None? || userId.value == ""
    ensures r.Some? ==> r.value == Upsert(userId.value, date, StoredTitle(current.title), current.body)
  {
    if Trim(current.body) == [] then None
    else if userId.None? || userId.value == "" then None
    else Some(Upsert(userId.value, date, StoredTitle(current.title), current.body))
  }

  /** The baseline after a save attempt: the saved fields on success, unchanged on failure. */
  function BaselineAfterSave(current: Fields, baseline: Fields, succeeded: bool): (b: Fields)
    ensures succeeded ==> !IsDirty(current, b)
    ensures !succeeded ==> b == baseline
  {
    if succeeded then current else baseline
  }

  /** The Ctrl/Cmd+S handler saves when not saving or loading and the body is not blank. */
  predicate ShortcutSaves(isSaveCombo: bool, saving: bool, loading: bool, body: string) {
    isSaveCombo && !saving && !loading && Trim(body) != []
  }

  /** A save the shortcut starts always sends a request once a user is known. */
  lemma ShortcutSendsRequest(isSaveCombo: bool, saving: bool, loading: bool, current: Fields, userId: string, date: string)
    requires ShortcutSaves(isSaveCombo, saving, loading, current.body)
    requires userId != ""
    ensures SaveRequest(current, Some(userId), date).Some?
    ensures SaveRequest(current, Some(userId), date).value.body == current.body
  {
  }
}
