/** Post-processing of the language model's reply text into reply options:
    split into lines, strip each line, strip leading list markers, strip
    again, drop empty lines, and insist on at least six. The model call
    itself is outside this module; its text output is the input here. */
module ReplyCleaning {
  import opened Text
  import opened Results

  /** How many reply options a successful generation yields. */
  const ReplyCount: nat := 6

  const InvalidOutput: string := "Claude output invalid"

  /** The characters passed to `lstrip` as written: '-', the digits, '.',
      ' ', and U+00E2 U+20AC U+00A2, which are the three UTF-8 bytes of the
      bullet U+2022 read as Windows-1252 rather than the bullet itself. */
  const WrittenMarkers: set<char> :=
    {'-', '\U{00E2}', '\U{20AC}', '\U{00A2}', '0', '1', '2', '3', '4', '5', '6', '7', '8', '9', '.', ' '}

  /** The bullet character the written marker set evidently stands for. */
  const Bullet: char := '\U{2022}'

  predicate IsWrittenMarker(c: char) {
    c in WrittenMarkers
  }

  /** The corrected marker class: the written markers, the real bullet, and
      all whitespace, so that markers separated by a tab are removed too. */
  predicate IsIntendedMarker(c: char) {
    c in WrittenMarkers || c == Bullet || IsPyWhitespace(c)
  }

  /** `line.strip().lstrip(markers).strip()`: a slice of the line, with no
      surrounding whitespace, preceded in the line only by whitespace and
      markers and followed only by whitespace. */
  function CleanLineWith(line: string, marker: char -> bool): (r: string)
    ensures r == [] || (!IsPyWhitespace(r[0]) && !IsPyWhitespace(r[|r| - 1]))
  {
    PyStrip(TrimStart(PyStrip(line), marker))
  }

  /** The cleaned line is a slice of the line, preceded in the line only by
      whitespace and markers and followed only by whitespace. */
  lemma CleanLineIsSlice(line: string, marker: char -> bool) returns (a: nat)
    ensures a + |CleanLineWith(line, marker)| <= |line|
    ensures CleanLineWith(line, marker) == line[a..a + |CleanLineWith(line, marker)|]
    ensures forall i | 0 <= i < a :: IsPyWhitespace(line[i]) || marker(line[i])
    ensures forall i | a + |CleanLineWith(line, marker)| <= i < |line| :: IsPyWhitespace(line[i])
  {
    a := StripLstripStrip(line, IsPyWhitespace, marker);
  }

  /** `CleanLineIsSlice` for any whitespace class `ws`. */
  lemma StripLstripStrip(line: string, ws: char -> bool, marker: char -> bool) returns (a: nat)
    ensures var r := Trim(TrimStart(Trim(line, ws), marker), ws);
      && a + |r| <= |line|
      && r == line[a..a + |r|]
      && (forall i | 0 <= i < a :: ws(line[i]) || marker(line[i]))
      && (forall i | a + |r| <= i < |line| :: ws(line[i]))
  {
    var s1 := Trim(line, ws);
    var a1 := TrimIsSlice(line, ws);
    var r := Trim(TrimStart(s1, marker), ws);
    LstripStripped(s1, ws, marker);
    a := a1 + |s1| - |r|;
    SliceOfSlice(line, a1, |s1|, |s1| - |r|, |r|);
    forall i | 0 <= i < a ensures ws(line[i]) || marker(line[i]) {
      if a1 <= i {
        assert line[i] == s1[i - a1];
      }
    }
  }

  /** Stripping markers and then whitespace off a string that ends in a
      non-whitespace character leaves a suffix of it, and only whitespace
      and markers went. */
  lemma LstripStripped(s: string, ws: char -> bool, marker: char -> bool)
    requires s == [] || !ws(s[|s| - 1])
    ensures var r := Trim(TrimStart(s, marker), ws);
      && r == s[|s| - |r|..]
      && forall i | 0 <= i < |s| - |r| :: ws(s[i]) || marker(s[i])
  {
    var t := TrimStart(s, marker);
    TrimStartDropsPrefix(s, marker);
    var u := TrimStart(t, ws);
    TrimStartDropsPrefix(t, ws);
    if u != [] {
      assert u[|u| - 1] == s[|s| - 1];
    }
    assert TrimEnd(u, ws) == u;
    forall i | |s| - |t| <= i < |s| - |u| ensures ws(s[i]) {
      assert s[i] == t[i - (|s| - |t|)];
    }
  }

  /** A slice of a slice is a slice. */
  lemma SliceOfSlice(s: string, a: nat, n: nat, b: nat, m: nat)
    requires a + n <= |s| && b + m <= n
    ensures s[a..a + n][b..b + m] == s[a + b..a + b + m]
  {
    var x := s[a..a + n][b..b + m];
    assert forall k | 0 <= k < m :: x[k] == s[a + b + k];
  }

  /** One line cleaned as the source writes it. */
  function CleanLine(line: string): string {
    CleanLineWith(line, IsWrittenMarker)
  }

  /** One line cleaned with the corrected marker class. */
  function CleanLineIntended(line: string): string {
    CleanLineWith(line, IsIntendedMarker)
  }

  /** As written, a line that holds no whitespace other than plain spaces
      keeps no leading marker. */
  lemma CleanLineDropsMarkers(line: string)
    requires forall i | 0 <= i < |line| :: IsPyWhitespace(line[i]) ==> line[i] == ' '
    ensures CleanLine(line) == [] || !IsWrittenMarker(CleanLine(line)[0])
  {
    var s1 := PyStrip(line);
    var a1 := TrimIsSlice(line, IsPyWhitespace);
    var t := TrimStart(s1, IsWrittenMarker);
    TrimStartDropsPrefix(s1, IsWrittenMarker);
    if t != [] {
      assert t[0] == line[a1 + |s1| - |t|];
      TrimKeepsFirst(t, IsPyWhitespace);
    }
  }

  /** As written, the bullet U+2022 is not a marker: a bulleted reply keeps
      its bullet. */
  lemma BulletSurvivesAsWritten()
    ensures CleanLine("\U{2022} Yes") == "\U{2022} Yes"
  {
    var l := "\U{2022} Yes";
    TrimKeepsKept(l, IsPyWhitespace);
    assert TrimStart(l, IsWrittenMarker) == l;
  }

  /** As written, a marker after a tab survives: only plain spaces are in the
      marker set, and the final strip exposes the second marker. */
  lemma TabbedMarkerSurvivesAsWritten()
    ensures CleanLine("1.\t2. Yes") == "2. Yes"
  {
    var l := "1.\t2. Yes";
    TrimKeepsKept(l, IsPyWhitespace);
    TabbedMarkerStops();
    TabThenMarkerStrips();
  }

  lemma TabbedMarkerStops()
    ensures TrimStart("1.\t2. Yes", IsWrittenMarker) == "\t2. Yes"
  {
    var l := "1.\t2. Yes";
    var l1 := ".\t2. Yes";
    var l2 := "\t2. Yes";
    assert IsWrittenMarker(l[0]) && IsWrittenMarker(l1[0]) && !IsWrittenMarker(l2[0]);
    assert l[1..] == l1 && l1[1..] == l2;
    TrimStartStep(l, IsWrittenMarker);
    TrimStartStep(l1, IsWrittenMarker);
  }

  lemma TabThenMarkerStrips()
    ensures PyStrip("\t2. Yes") == "2. Yes"
  {
    var t := "\t2. Yes";
    TrimStartStep(t, IsPyWhitespace);
    assert t[1..] == "2. Yes";
    TrimKeepsKept("2. Yes", IsPyWhitespace);
    assert TrimStart("2. Yes", IsPyWhitespace) == "2. Yes";
  }

  /** With the corrected marker class no kept line starts with a marker, a
      bullet or whitespace. */
  lemma CleanLineIntendedDropsMarkers(line: string)
    ensures CleanLineIntended(line) == [] || !IsIntendedMarker(CleanLineIntended(line)[0])
  {
    var t := TrimStart(PyStrip(line), IsIntendedMarker);
    if t != [] {
      TrimKeepsFirst(t, IsPyWhitespace);
    }
  }

  /** The corrected cleaning removes the bullet. */
  lemma BulletRemovedIntended()
    ensures CleanLineIntended("\U{2022} Yes") == "Yes"
  {
    var l := "\U{2022} Yes";
    TrimKeepsKept(l, IsPyWhitespace);
    TrimStartStep(l, IsIntendedMarker);
    assert l[1..] == " Yes";
    TrimStartStep(l[1..], IsIntendedMarker);
    assert l[1..][1..] == "Yes";
    assert TrimStart("Yes", IsIntendedMarker) == "Yes";
    TrimKeepsKept("Yes", IsPyWhitespace);
  }

  /** The loop over the reply's lines: each line cleaned, the empty ones
      dropped. Kept lines are non-empty and stripped. */
  function KeepCleaned(lines: seq<string>, marker: char -> bool): (r: seq<string>)
    ensures |r| <= |lines|
    ensures forall k | 0 <= k < |r| :: r[k] != [] && !IsPyWhitespace(r[k][0]) && !IsPyWhitespace(r[k][|r[k]| - 1])
    decreases |lines|
  {
    if |lines| == 0 then []
    else
      var rest := KeepCleaned(lines[1..], marker);
      var c := CleanLineWith(lines[0], marker);
      if c == [] then rest else [c] + rest
  }

  /** Cleaning one line keeps it exactly when it cleans to something. */
  lemma KeepCleanedOne(line: string, marker: char -> bool)
    ensures KeepCleaned([line], marker)
         == (if CleanLineWith(line, marker) == [] then [] else [CleanLineWith(line, marker)])
  {
    assert [line][1..] == [];
  }

  /** Cleaning respects concatenation: the lines kept from `a + b` are those
      kept from `a` followed by those kept from `b`. With `KeepCleanedOne`
      this pins the result down: empty results are dropped and the order of
      the lines is preserved. */
  lemma {:induction false} KeepCleanedAppend(a: seq<string>, b: seq<string>, marker: char -> bool)
    ensures KeepCleaned(a + b, marker) == KeepCleaned(a, marker) + KeepCleaned(b, marker)
    decreases |a|
  {
    if |a| > 0 {
      assert (a + b)[1..] == a[1..] + b;
      KeepCleanedAppend(a[1..], b, marker);
    } else {
      assert a + b == b;
    }
  }

  /** The cleaned lines of a raw model reply. */
  function CleanedLines(raw: string, marker: char -> bool): seq<string> {
    KeepCleaned(Split(raw, '\n'), marker)
  }

  /** `generate_replies` after the model call: fails with `ValueError` when
      fewer than six lines survive cleaning, and otherwise yields exactly the
      first six cleaned lines in order. */
  function GenerateRepliesWith(raw: string, marker: char -> bool): (r: Result<seq<string>, string>)
    ensures r.Failure? <==> |CleanedLines(raw, marker)| < ReplyCount
    ensures r.Failure? ==> r.error == InvalidOutput
    ensures r.Success? ==> |r.value| == ReplyCount
    ensures r.Success? ==> forall k | 0 <= k < ReplyCount :: r.value[k] == CleanedLines(raw, marker)[k]
  {
    var lines := CleanedLines(raw, marker);
    if |lines| < ReplyCount then Failure(InvalidOutput) else Success(lines[..ReplyCount])
  }

  /** The reply post-processing as the source writes it. */
  function GenerateReplies(raw: string): Result<seq<string>, string> {
    GenerateRepliesWith(raw, IsWrittenMarker)
  }

  /** The reply post-processing with the corrected marker class. */
  function GenerateRepliesIntended(raw: string): Result<seq<string>, string> {
    GenerateRepliesWith(raw, IsIntendedMarker)
  }

  /** A successful generation yields six non-empty, stripped replies. */
  lemma RepliesAreCleanLines(raw: string, marker: char -> bool)
    requires GenerateRepliesWith(raw, marker).Success?
    ensures forall k | 0 <= k < ReplyCount ::
              var v := GenerateRepliesWith(raw, marker).value[k];
              v != [] && !IsPyWhitespace(v[0]) && !IsPyWhitespace(v[|v| - 1])
  {
  }
}
