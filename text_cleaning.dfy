/** JobBoardScraper.clean_text and the Python string operations it is built from. */
module TextCleaning {
  import opened Wrappers

  /** Python's `str.isspace` for one character: exactly the characters `str.strip()` removes. */
  predicate IsSpace(ch: char) {
    || ('\U{9}' <= ch <= '\U{D}')
    || ('\U{1C}' <= ch <= '\U{20}')
    || ch == '\U{85}' || ch == '\U{A0}' || ch == '\U{1680}'
    || ('\U{2000}' <= ch <= '\U{200A}')
    || ch == '\U{2028}' || ch == '\U{2029}' || ch == '\U{202F}' || ch == '\U{205F}' || ch == '\U{3000}'
  }

  /** `not line.strip()`: the line holds nothing but whitespace. */
  predicate IsBlank(line: string) {
    forall i :: 0 <= i < |line| ==> IsSpace(line[i])
  }

  /** No two neighbouring characters of `s` are both `c`. */
  predicate NoAdjacent(s: string, c: char) {
    forall i :: 0 <= i < |s| - 1 ==> !(s[i] == c && s[i + 1] == c)
  }

  function Repeat(c: char, n: nat): (r: string)
    ensures |r| == n && forall i :: 0 <= i < n ==> r[i] == c
  {
    if n == 0 then [] else [c] + Repeat(c, n - 1)
  }

  function Min(a: nat, b: nat): nat {
    if a <= b then a else b
  }

  // ---------------------------------------------------------------------------
  // The two regular-expression substitutions
  // ---------------------------------------------------------------------------

  /**
   * Scans `s` left to right; `run` is how many copies of `c` the current run of `c`
   * has already contributed to the output. A run keeps only its first `m` copies.
   */
  function CapFrom(s: string, c: char, m: nat, run: nat): string
    decreases |s|
  {
    if s == [] then []
    else if s[0] != c then [s[0]] + CapFrom(s[1..], c, m, 0)
    else if run < m then [c] + CapFrom(s[1..], c, m, run + 1)
    else CapFrom(s[1..], c, m, run)
  }

  /**
   * Every maximal run of `c` in `s` cut down to at most `m` copies. `re.sub(r'\n{3,}', '\n\n', s)`
   * is `CapRuns(s, '\n', 2)` (runs of one or two newlines are left alone) and
   * `re.sub(r' +', ' ', s)` is `CapRuns(s, ' ', 1)`.
   */
  function CapRuns(s: string, c: char, m: nat): string {
    CapFrom(s, c, m, 0)
  }

  /** A maximal run of `n` copies of `c` at the front comes out as `min(n, m)` copies. */
  lemma {:induction false} CapRunsLeadingRun(n: nat, rest: string, c: char, m: nat)
    requires rest == [] || rest[0] != c
    ensures CapRuns(Repeat(c, n) + rest, c, m) == Repeat(c, Min(n, m)) + CapRuns(rest, c, m)
  {
    CapFromLeadingRun(n, rest, c, m, 0);
  }

  lemma {:induction false} CapFromLeadingRun(n: nat, rest: string, c: char, m: nat, run: nat)
    requires rest == [] || rest[0] != c
    requires run <= m
    ensures CapFrom(Repeat(c, n) + rest, c, m, run) == Repeat(c, Min(n, m - run)) + CapFrom(rest, c, m, 0)
    decreases n
  {
    if n == 0 {
      assert Repeat(c, 0) + rest == rest;
      if rest != [] {
        assert CapFrom(rest, c, m, run) == [rest[0]] + CapFrom(rest[1..], c, m, 0);
      }
    } else {
      var s := Repeat(c, n) + rest;
      assert s[0] == c;
      assert s[1..] == Repeat(c, n - 1) + rest;
      if run < m {
        CapFromLeadingRun(n - 1, rest, c, m, run + 1);
        assert [c] + Repeat(c, Min(n - 1, m - (run + 1))) == Repeat(c, Min(n, m - run));
      } else {
        CapFromLeadingRun(n - 1, rest, c, m, run);
      }
    }
  }

  /** With `m == 1` no two copies of `c` stay adjacent, and a run already started admits no more. */
  lemma {:induction false} CapFromSeparates(s: string, c: char, run: nat)
    ensures NoAdjacent(CapFrom(s, c, 1, run), c)
    ensures run >= 1 && CapFrom(s, c, 1, run) != [] ==> CapFrom(s, c, 1, run)[0] != c
    decreases |s|
  {
    if s != [] {
      if s[0] != c {
        CapFromSeparates(s[1..], c, 0);
      } else if run < 1 {
        CapFromSeparates(s[1..], c, run + 1);
      } else {
        CapFromSeparates(s[1..], c, run);
      }
    }
  }

  /** A text in which no two copies of `c` are adjacent passes through unchanged. */
  lemma {:induction false} CapFromIdentity(s: string, c: char, m: nat, run: nat)
    requires m >= 1 && NoAdjacent(s, c)
    requires run < m || s == [] || s[0] != c
    ensures CapFrom(s, c, m, run) == s
    decreases |s|
  {
    if s != [] {
      assert NoAdjacent(s[1..], c);
      if s[0] != c {
        CapFromIdentity(s[1..], c, m, 0);
      } else {
        assert |s| > 1 ==> s[1] != c;
        CapFromIdentity(s[1..], c, m, run + 1);
      }
      assert s == [s[0]] + s[1..];
    }
  }

  /** Capping runs of a whitespace character neither creates nor removes visible characters. */
  lemma {:induction false} CapFromBlank(s: string, c: char, m: nat, run: nat)
    requires IsSpace(c)
    ensures IsBlank(CapFrom(s, c, m, run)) <==> IsBlank(s)
    decreases |s|
  {
    if s != [] {
      var r := CapFrom(s, c, m, run);
      if s[0] != c {
        CapFromBlank(s[1..], c, m, 0);
        assert r == [s[0]] + CapFrom(s[1..], c, m, 0);
      } else if run < m {
        CapFromBlank(s[1..], c, m, run + 1);
        assert r == [c] + CapFrom(s[1..], c, m, run + 1);
      } else {
        CapFromBlank(s[1..], c, m, run);
      }
      BlankCons(s);
      if r != [] { BlankCons(r); }
    }
  }

  lemma BlankCons(s: string)
    requires s != []
    ensures IsBlank(s) <==> IsSpace(s[0]) && IsBlank(s[1..])
  {
    if IsSpace(s[0]) && IsBlank(s[1..]) {
      forall i | 0 <= i < |s| ensures IsSpace(s[i]) {
        if i > 0 { assert s[i] == s[1..][i - 1]; }
      }
    }
  }

  // ---------------------------------------------------------------------------
  // str.find, str.split and str.join for a one-character separator
  // ---------------------------------------------------------------------------

  /** The position of the first `c` in `s`, or `|s|` when there is none. */
  function IndexOf(s: string, c: char): (k: nat)
    ensures k <= |s|
    ensures forall i :: 0 <= i < k ==> s[i] != c
    ensures k < |s| ==> s[k] == c
  {
    if s == [] then 0 else if s[0] == c then 0 else 1 + IndexOf(s[1..], c)
  }

  /** Python's `s.split(sep)`: the pieces between separators, always at least one. */
  function Split(s: string, sep: char): (lines: seq<string>)
    ensures |lines| >= 1
    ensures forall i :: 0 <= i < |lines| ==> sep !in lines[i]
    decreases |s|
  {
    var k := IndexOf(s, sep);
    if k == |s| then [s] else [s[..k]] + Split(s[k + 1..], sep)
  }

  /** Python's `sep.join(lines)`. */
  function Join(lines: seq<string>, sep: char): string {
    if |lines| == 0 then []
    else if |lines| == 1 then lines[0]
    else lines[0] + [sep] + Join(lines[1..], sep)
  }

  /** Splitting and joining again gives back the text. */
  lemma {:induction false} JoinSplit(s: string, sep: char)
    ensures Join(Split(s, sep), sep) == s
    decreases |s|
  {
    var k := IndexOf(s, sep);
    if k < |s| {
      var rest := Split(s[k + 1..], sep);
      JoinSplit(s[k + 1..], sep);
      assert Split(s, sep) == [s[..k]] + rest;
      assert Split(s, sep)[1..] == rest;
      assert s == s[..k] + [sep] + s[k + 1..];
    }
  }

  /** Joining pieces free of the separator and splitting again gives back the pieces. */
  lemma {:induction false} SplitJoin(lines: seq<string>, sep: char)
    requires |lines| >= 1
    requires forall i :: 0 <= i < |lines| ==> sep !in lines[i]
    ensures Split(Join(lines, sep), sep) == lines
  {
    var s := Join(lines, sep);
    if |lines| == 1 {
      assert IndexOf(s, sep) == |s|;
    } else {
      var head := lines[0];
      var tail := Join(lines[1..], sep);
      assert s == head + [sep] + tail;
      assert s[|head|] == sep;
      assert IndexOf(s, sep) == |head|;
      assert s[..|head|] == head;
      assert s[|head| + 1..] == tail;
      SplitJoin(lines[1..], sep);
      assert lines == [head] + lines[1..];
    }
  }

  /** Every piece of a split keeps the "no adjacent `c`" property of the whole. */
  lemma {:induction false} SplitNoAdjacent(s: string, sep: char, c: char)
    requires NoAdjacent(s, c)
    ensures forall i :: 0 <= i < |Split(s, sep)| ==> NoAdjacent(Split(s, sep)[i], c)
    decreases |s|
  {
    var k := IndexOf(s, sep);
    if k < |s| {
      var head := s[..k];
      assert NoAdjacent(head, c) by {
        forall i | 0 <= i < |head| - 1 ensures !(head[i] == c && head[i + 1] == c) {
          assert head[i] == s[i] && head[i + 1] == s[i + 1];
        }
      }
      var rest := s[k + 1..];
      assert NoAdjacent(rest, c) by {
        forall i | 0 <= i < |rest| - 1 ensures !(rest[i] == c && rest[i + 1] == c) {
          assert rest[i] == s[k + 1 + i] && rest[i + 1] == s[k + 1 + i + 1];
        }
      }
      SplitNoAdjacent(rest, sep, c);
    }
  }

  /** The pieces of a blank text are blank. */
  lemma {:induction false} SplitOfBlank(s: string, sep: char)
    requires IsBlank(s)
    ensures forall i :: 0 <= i < |Split(s, sep)| ==> IsBlank(Split(s, sep)[i])
    decreases |s|
  {
    var k := IndexOf(s, sep);
    if k < |s| {
      var head, rest := s[..k], s[k + 1..];
      assert IsBlank(head) by {
        forall i | 0 <= i < |head| ensures IsSpace(head[i]) { assert head[i] == s[i]; }
      }
      assert IsBlank(rest) by {
        forall i | 0 <= i < |rest| ensures IsSpace(rest[i]) { assert rest[i] == s[k + 1 + i]; }
      }
      SplitOfBlank(rest, sep);
      var lines := Split(s, sep);
      assert lines == [head] + Split(rest, sep);
      forall i | 0 <= i < |lines| ensures IsBlank(lines[i]) {
        if i > 0 { assert lines[i] == Split(rest, sep)[i - 1]; }
      }
    }
  }

  /** A visible character outside the separator lands on some piece, which is then not blank. */
  lemma {:induction false} SplitOfVisible(s: string, sep: char, j: nat)
    requires IsSpace(sep)
    requires j < |s| && !IsSpace(s[j])
    ensures exists i :: 0 <= i < |Split(s, sep)| && !IsBlank(Split(s, sep)[i])
    decreases |s|
  {
    var k := IndexOf(s, sep);
    var lines := Split(s, sep);
    if k == |s| {
      assert lines[0] == s;
    } else if j < k {
      assert lines[0] == s[..k] && s[..k][j] == s[j];
    } else {
      var rest := s[k + 1..];
      assert rest[j - k - 1] == s[j];
      SplitOfVisible(rest, sep, j - k - 1);
      var i :| 0 <= i < |Split(rest, sep)| && !IsBlank(Split(rest, sep)[i]);
      assert lines[i + 1] == Split(rest, sep)[i];
    }
  }

  /** Pieces that hold no `c` pairs, joined by a separator other than `c`, hold none either. */
  lemma {:induction false} JoinNoAdjacent(lines: seq<string>, sep: char, c: char)
    requires sep != c
    requires forall i :: 0 <= i < |lines| ==> NoAdjacent(lines[i], c)
    ensures NoAdjacent(Join(lines, sep), c)
  {
    if |lines| > 1 {
      JoinNoAdjacent(lines[1..], sep, c);
      NoAdjacentAround(lines[0], sep, Join(lines[1..], sep), c);
    }
  }

  /** Non-empty pieces free of the separator, joined, never put two separators side by side. */
  lemma {:induction false} JoinSeparatesOnce(lines: seq<string>, sep: char)
    requires forall i :: 0 <= i < |lines| ==> lines[i] != [] && sep !in lines[i]
    ensures NoAdjacent(Join(lines, sep), sep)
    ensures |lines| >= 1 ==> |Join(lines, sep)| >= |lines[0]| && Join(lines, sep)[0] == lines[0][0]
  {
    if |lines| > 1 {
      var tail := Join(lines[1..], sep);
      JoinSeparatesOnce(lines[1..], sep);
      assert lines[0][|lines[0]| - 1] in lines[0];
      assert tail[0] == lines[1][0] && lines[1][0] in lines[1];
      assert NoAdjacent(lines[0], sep) by {
        forall i | 0 <= i < |lines[0]| - 1 ensures lines[0][i] != sep { assert lines[0][i] in lines[0]; }
      }
      NoAdjacentAround(lines[0], sep, tail, sep);
    }
  }

  lemma NoAdjacentAround(a: string, x: char, b: string, c: char)
    requires NoAdjacent(a, c) && NoAdjacent(b, c)
    requires x == c ==> (a == [] || a[|a| - 1] != c) && (b == [] || b[0] != c)
    ensures NoAdjacent(a + [x] + b, c)
  {
    var s := a + [x] + b;
    forall i | 0 <= i < |s| - 1 ensures !(s[i] == c && s[i + 1] == c) {
      if i < |a| - 1 {
        assert s[i] == a[i] && s[i + 1] == a[i + 1];
      } else if i == |a| - 1 {
        assert s[i] == a[i] && s[i + 1] == x;
      } else if i == |a| {
        assert s[i] == x && s[i + 1] == b[0];
      } else {
        assert s[i] == b[i - |a| - 1] && s[i + 1] == b[i - |a|];
      }
    }
  }

  // ---------------------------------------------------------------------------
  // clean_text
  // ---------------------------------------------------------------------------

  /** `(line for line in text.split('\n') if line.strip())` */
  function KeepNonBlank(lines: seq<string>): (kept: seq<string>)
    ensures |kept| <= |lines|
    ensures (forall i :: 0 <= i < |lines| ==> !IsBlank(lines[i])) ==> kept == lines
  {
    if lines == [] then []
    else if IsBlank(lines[0]) then KeepNonBlank(lines[1..])
    else [lines[0]] + KeepNonBlank(lines[1..])
  }

  /** The filter keeps only lines of the input, none of them blank, and every line that is not blank. */
  lemma {:induction false} KeepNonBlankMembers(lines: seq<string>)
    ensures var kept := KeepNonBlank(lines);
      && (forall i :: 0 <= i < |kept| ==> !IsBlank(kept[i]) && kept[i] in lines)
      && (forall i :: 0 <= i < |lines| && !IsBlank(lines[i]) ==> lines[i] in kept)
  {
    if lines != [] {
      KeepNonBlankMembers(lines[1..]);
      assert lines == [lines[0]] + lines[1..];
    }
  }

  /**
   * The filter works line by line and keeps the input order: filtering two runs of lines one
   * after the other gives the two kept runs one after the other (with KeepNonBlank's ensures and
   * KeepNonBlankMembers, which settle a single line, this fixes every kept line, its order and
   * its repetitions).
   */
  lemma {:induction false} KeepNonBlankAppend(a: seq<string>, b: seq<string>)
    ensures KeepNonBlank(a + b) == KeepNonBlank(a) + KeepNonBlank(b)
  {
    if a == [] {
      assert a + b == b;
    } else {
      var line, rest := a[0], a[1..];
      var front := if IsBlank(line) then [] else [line];
      var keptRest, keptB := KeepNonBlank(rest), KeepNonBlank(b);
      assert KeepNonBlank(a + b) == front + (keptRest + keptB) by {
        assert a + b == [line] + (rest + b);
        KeepNonBlankCons(line, rest + b);
        KeepNonBlankAppend(rest, b);
      }
      assert KeepNonBlank(a) == front + keptRest by {
        assert a == [line] + rest;
        KeepNonBlankCons(line, rest);
      }
      AppendAssociative(front, keptRest, keptB);
    }
  }

  /** One line at the front is kept, or dropped when blank, ahead of the rest. */
  lemma KeepNonBlankCons(line: string, rest: seq<string>)
    ensures KeepNonBlank([line] + rest) == (if IsBlank(line) then [] else [line]) + KeepNonBlank(rest)
  {
    assert ([line] + rest)[0] == line && ([line] + rest)[1..] == rest;
  }

  /** The lines `clean_text` keeps: the three steps up to, but not including, the final join. */
  function CleanedLines(text: string): seq<string> {
    var newlinesCollapsed := CapRuns(text, '\n', 2);
    var spacesCollapsed := CapRuns(newlinesCollapsed, ' ', 1);
    KeepNonBlank(Split(spacesCollapsed, '\n'))
  }

  /** JobBoardScraper.clean_text. */
  function CleanText(text: string): string {
    if text == [] then [] else Join(CleanedLines(text), '\n')
  }

  /** The kept lines: none blank, none holding a newline, none with two adjacent spaces. */
  lemma CleanedLinesShape(text: string)
    ensures forall i :: 0 <= i < |CleanedLines(text)| ==>
      var line := CleanedLines(text)[i];
      && line != [] && !IsBlank(line) && '\n' !in line && NoAdjacent(line, ' ')
  {
    var spacesCollapsed := CapRuns(CapRuns(text, '\n', 2), ' ', 1);
    var pieces := Split(spacesCollapsed, '\n');
    CapFromSeparates(CapRuns(text, '\n', 2), ' ', 0);
    SplitNoAdjacent(spacesCollapsed, '\n', ' ');
    KeepNonBlankMembers(pieces);
    forall i | 0 <= i < |CleanedLines(text)|
      ensures var line := CleanedLines(text)[i]; line != [] && '\n' !in line && NoAdjacent(line, ' ')
    {
      var line := CleanedLines(text)[i];
      var j :| 0 <= j < |pieces| && pieces[j] == line;
    }
  }

  /** The cleaned text is empty exactly when the input holds no visible character; "" gives "". */
  lemma CleanTextEmpty(text: string)
    ensures CleanText(text) == [] <==> IsBlank(text)
  {
    if text != [] {
      var newlinesCollapsed := CapRuns(text, '\n', 2);
      var spacesCollapsed := CapRuns(newlinesCollapsed, ' ', 1);
      var pieces := Split(spacesCollapsed, '\n');
      var lines := CleanedLines(text);
      CapFromBlank(text, '\n', 2, 0);
      CapFromBlank(newlinesCollapsed, ' ', 1, 0);
      CleanedLinesShape(text);
      JoinSeparatesOnce(lines, '\n');
      KeepNonBlankMembers(pieces);
      if IsBlank(text) {
        SplitOfBlank(spacesCollapsed, '\n');
      } else {
        var j :| 0 <= j < |spacesCollapsed| && !IsSpace(spacesCollapsed[j]);
        SplitOfVisible(spacesCollapsed, '\n', j);
        var i :| 0 <= i < |pieces| && !IsBlank(pieces[i]);
        assert pieces[i] in lines;
      }
    }
  }

  /** Read back as lines, a non-empty cleaned text has a visible character on every line. */
  lemma CleanTextLinesVisible(text: string)
    ensures var r := CleanText(text);
      r == [] || forall i :: 0 <= i < |Split(r, '\n')| ==> !IsBlank(Split(r, '\n')[i])
  {
    var lines := CleanedLines(text);
    if text != [] && lines != [] {
      CleanedLinesShape(text);
      SplitJoin(lines, '\n');
    }
  }

  /** A cleaned text never holds "\n\n": lines are separated by exactly one newline. */
  lemma CleanTextSingleNewlines(text: string)
    ensures NoAdjacent(CleanText(text), '\n')
  {
    if text != [] {
      CleanedLinesShape(text);
      JoinSeparatesOnce(CleanedLines(text), '\n');
    }
  }

  /** A cleaned text never holds two adjacent spaces. */
  lemma CleanTextSingleSpaces(text: string)
    ensures NoAdjacent(CleanText(text), ' ')
  {
    if text != [] {
      CleanedLinesShape(text);
      JoinNoAdjacent(CleanedLines(text), '\n', ' ');
    }
  }

  /** Cleaning a cleaned text changes nothing. */
  lemma CleanTextIdempotent(text: string)
    ensures CleanText(CleanText(text)) == CleanText(text)
  {
    var r := CleanText(text);
    if r != [] {
      CleanTextSingleNewlines(text);
      CleanTextSingleSpaces(text);
      CleanTextLinesVisible(text);
      CapFromIdentity(r, '\n', 2, 0);
      CapFromIdentity(r, ' ', 1, 0);
      assert CleanedLines(r) == Split(r, '\n');
      JoinSplit(r, '\n');
    }
  }
}
