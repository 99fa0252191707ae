/**
 * The part of the CodeMirror document that the markdown commands use: a
 * buffer of lines addressed by zero-based (line, ch) positions, whose text is
 * the lines joined by "\n", and the single edit `replaceRange`.
 */
module Buffer {
  import opened Wrappers

  /** A buffer position: zero-based line and column (`{line, ch}`). */
  datatype Pos = Pos(line: nat, ch: nat)

  /** A range `{from, to}` with `from` at or before `to`. */
  datatype Range = Range(from: Pos, to: Pos)

  /** The arguments of one `doc.replaceRange(text, from, to, origin)` call. */
  datatype Edit = Edit(text: string, from: Pos, to: Pos, origin: string)

  predicate NoNewline(s: string)
  {
    '\n' !in s
  }

  /** A buffer holds at least one line and no line contains a line break. */
  predicate WellFormed(lines: seq<string>)
  {
    |lines| >= 1 && forall i | 0 <= i < |lines| :: NoNewline(lines[i])
  }

  predicate ValidPos(lines: seq<string>, p: Pos)
  {
    p.line < |lines| && p.ch <= |lines[p.line]|
  }

  /** `p` is at or before `q` in buffer order. */
  predicate AtOrBefore(p: Pos, q: Pos)
  {
    p.line < q.line || (p.line == q.line && p.ch <= q.ch)
  }

  predicate ValidRange(lines: seq<string>, r: Range)
  {
    ValidPos(lines, r.from) && ValidPos(lines, r.to) && AtOrBefore(r.from, r.to)
  }

  /** `getLine(n)`: the n-th line, or `undefined` past the last line. */
  function LineAt(lines: seq<string>, n: nat): (r: Option<string>)
    ensures r.Some? <==> n < |lines|
    ensures r.Some? ==> r.value == lines[n]
  {
    if n < |lines| then Some(lines[n]) else None
  }

  /** The text of a buffer: its lines separated by "\n". */
  function JoinLines(ls: seq<string>): string
  {
    if |ls| == 0 then "" else if |ls| == 1 then ls[0] else ls[0] + "\n" + JoinLines(ls[1..])
  }

  /** Cuts a text at every "\n" into the lines of a buffer. */
  function SplitLines(s: string): (r: seq<string>)
    ensures WellFormed(r)
    decreases |s|
  {
    if s == [] then
      [""]
    else
      var rest := SplitLines(s[1..]);
      if s[0] == '\n' then [""] + rest else [[s[0]] + rest[0]] + rest[1..]
  }

  /** What joining puts before a block of lines that follows `a`. */
  function Lead(a: seq<string>): string
  {
    if a == [] then "" else JoinLines(a) + "\n"
  }

  /** What joining puts after a block of lines that precedes `c`. */
  function Trail(c: seq<string>): string
  {
    if c == [] then "" else "\n" + JoinLines(c)
  }

  lemma JoinCons(x: string, ls: seq<string>)
    ensures JoinLines([x] + ls) == x + Trail(ls)
  {
    assert ([x] + ls)[1..] == ls;
  }

  /** Joining the lines a text splits into gives back the text. */
  lemma {:induction false} JoinSplit(s: string)
    ensures JoinLines(SplitLines(s)) == s
    decreases |s|
  {
    if s != [] {
      var rest := SplitLines(s[1..]);
      JoinSplit(s[1..]);
      var t := Trail(rest[1..]);
      JoinCons(rest[0], rest[1..]);
      assert [rest[0]] + rest[1..] == rest;
      assert rest[0] + t == s[1..];
      if s[0] == '\n' {
        JoinCons("", rest);
        assert s == "\n" + s[1..];
      } else {
        JoinCons([s[0]] + rest[0], rest[1..]);
        assert ([s[0]] + rest[0]) + t == [s[0]] + (rest[0] + t);
        assert s == [s[0]] + s[1..];
      }
    }
  }

  /** A line-break-free head stays glued to the first line of what follows. */
  lemma {:induction false} SplitPrefix(x: string, t: string)
    requires NoNewline(x)
    ensures SplitLines(x + t) == [x + SplitLines(t)[0]] + SplitLines(t)[1..]
    decreases |x|
  {
    if x == [] {
      assert x + t == t;
      assert x + SplitLines(t)[0] == SplitLines(t)[0];
      assert [SplitLines(t)[0]] + SplitLines(t)[1..] == SplitLines(t);
    } else {
      assert (x + t)[1..] == x[1..] + t;
      assert x[0] != '\n' by { assert x[0] in x; }
      SplitPrefix(x[1..], t);
      assert [x[0]] + (x[1..] + SplitLines(t)[0]) == x + SplitLines(t)[0];
    }
  }

  /** A line-break-free tail stays glued to the last line of what precedes. */
  lemma {:induction false} SplitSuffix(x: string, t: string)
    requires NoNewline(t)
    ensures var sx := SplitLines(x);
      SplitLines(x + t) == sx[..|sx| - 1] + [sx[|sx| - 1] + t]
    decreases |x|
  {
    var sx := SplitLines(x);
    if x == [] {
      SplitPrefix(t, "");
      assert t + "" == t && x + t == t;
    } else {
      assert (x + t)[0] == x[0] && (x + t)[1..] == x[1..] + t;
      SplitSuffix(x[1..], t);
      var sr := SplitLines(x[1..]);
      if x[0] != '\n' {
        GlueLast([x[0]], sr, t);
      } else {
        GlueLast("", sr, t);
      }
    }
  }

  /**
   * Gluing `t` to the last line commutes with putting `c` in front of the
   * first line (or, for `c == ""`, with a new empty first line).
   */
  lemma GlueLast(c: string, sr: seq<string>, t: string)
    requires |sr| >= 1
    ensures var st := sr[..|sr| - 1] + [sr[|sr| - 1] + t];
      var sx := if c == "" then [""] + sr else [c + sr[0]] + sr[1..];
      (if c == "" then [""] + st else [c + st[0]] + st[1..]) == sx[..|sx| - 1] + [sx[|sx| - 1] + t]
  {
    var n := |sr|;
    var st := sr[..n - 1] + [sr[n - 1] + t];
    if c == "" {
      assert ([""] + sr)[..n] == [""] + sr[..n - 1];
    } else if n > 1 {
      var sx := [c + sr[0]] + sr[1..];
      assert st[0] == sr[0];
      assert st[1..] == sr[1..n - 1] + [sr[n - 1] + t];
      assert sx[..n - 1] == [c + sr[0]] + sr[1..n - 1];
    } else {
      assert c + (sr[0] + t) == (c + sr[0]) + t;
    }
  }

  /** Splitting the text of a well-formed buffer gives back its lines. */
  lemma {:induction false} SplitJoin(ls: seq<string>)
    requires WellFormed(ls)
    ensures SplitLines(JoinLines(ls)) == ls
    decreases |ls|
  {
    if |ls| == 1 {
      SplitPrefix(ls[0], "");
      assert ls[0] + "" == ls[0];
    } else {
      var rest := ls[1..];
      assert WellFormed(rest) by {
        forall i | 0 <= i < |rest| ensures NoNewline(rest[i]) { assert rest[i] == ls[i + 1]; }
      }
      SplitJoin(rest);
      assert NoNewline(ls[0]);
      SplitPrefix(ls[0], "\n" + JoinLines(rest));
      assert ("\n" + JoinLines(rest))[1..] == JoinLines(rest);
      assert SplitLines("\n" + JoinLines(rest)) == [""] + rest;
      assert ls[0] + "" == ls[0];
      assert JoinLines(ls) == ls[0] + "\n" + JoinLines(rest);
      assert ls[0] + "\n" + JoinLines(rest) == ls[0] + ("\n" + JoinLines(rest));
      assert [ls[0]] + rest == ls;
    }
  }

  /** The text of concatenated lines: the two texts meet at a line break. */
  lemma {:induction false} JoinAppend(a: seq<string>, b: seq<string>)
    requires |b| >= 1
    ensures JoinLines(a + b) == Lead(a) + JoinLines(b)
    decreases |a|
  {
    if a == [] {
      assert a + b == b;
    } else {
      var x, t := a[0], a[1..];
      assert a == [x] + t && a + b == [x] + (t + b);
      JoinAppend(t, b);
      JoinCons(x, t + b);
      JoinCons(x, t);
      assert JoinLines(a + b) == x + "\n" + (Lead(t) + JoinLines(b));
      assert Lead(a) == x + "\n" + Lead(t) by {
        if t != [] {
          assert JoinLines(a) == x + "\n" + JoinLines(t);
        }
      }
    }
  }

  /** The text of the buffer before position `p`. */
  function TextBefore(lines: seq<string>, p: Pos): string
    requires ValidPos(lines, p)
  {
    JoinLines(lines[..p.line] + [lines[p.line][..p.ch]])
  }

  /** The text of the buffer from position `p` on. */
  function TextAfter(lines: seq<string>, p: Pos): string
    requires ValidPos(lines, p)
  {
    JoinLines([lines[p.line][p.ch..]] + lines[p.line + 1..])
  }

  /**
   * The lines after `replaceRange(text, from, to)`: the part of line
   * `from.line` before `from`, then `text`, then the part of line `to.line`
   * after `to`, cut into lines; the lines before and after are kept.
   */
  function Splice(lines: seq<string>, from: Pos, to: Pos, text: string): (r: seq<string>)
    requires WellFormed(lines) && ValidRange(lines, Range(from, to))
    ensures WellFormed(r)
    ensures |r| == from.line + |SplitLines(text)| + (|lines| - to.line - 1)
    ensures r[..from.line] == lines[..from.line]
    ensures r[from.line + |SplitLines(text)|..] == lines[to.line + 1..]
  {
    var head := lines[from.line][..from.ch];
    var tail := lines[to.line][to.ch..];
    var middle := SplitLines(head + text + tail);
    SpliceMiddle(lines, from, to, text);
    ThreeParts(lines[..from.line], middle, lines[to.line + 1..]);
    lines[..from.line] + middle + lines[to.line + 1..]
  }

  /** Lines of a buffer around a well-formed block: the parts stay where they were. */
  lemma ThreeParts(a: seq<string>, m: seq<string>, c: seq<string>)
    requires forall i | 0 <= i < |a| :: NoNewline(a[i])
    requires forall i | 0 <= i < |c| :: NoNewline(c[i])
    requires WellFormed(m)
    ensures WellFormed(a + m + c)
    ensures (a + m + c)[..|a|] == a && (a + m + c)[|a| + |m|..] == c
  {
    var r := a + m + c;
    forall i | 0 <= i < |r| ensures NoNewline(r[i]) {
      if i < |a| {
        assert r[i] == a[i];
      } else if i < |a| + |m| {
        assert r[i] == m[i - |a|];
      } else {
        assert r[i] == c[i - |a| - |m|];
      }
    }
  }

  /** The number of "\n" in a text. */
  function LineBreaks(s: string): nat
    decreases |s|
  {
    if s == [] then 0 else (if s[0] == '\n' then 1 else 0) + LineBreaks(s[1..])
  }

  lemma {:induction false} SplitCount(s: string)
    ensures |SplitLines(s)| == LineBreaks(s) + 1
    decreases |s|
  {
    if s != [] { SplitCount(s[1..]); }
  }

  lemma {:induction false} LineBreaksAppend(a: string, b: string)
    ensures LineBreaks(a + b) == LineBreaks(a) + LineBreaks(b)
    decreases |a|
  {
    if a == [] {
      assert a + b == b;
    } else {
      assert (a + b)[1..] == a[1..] + b;
      LineBreaksAppend(a[1..], b);
    }
  }

  lemma {:induction false} NoLineBreaks(s: string)
    requires NoNewline(s)
    ensures LineBreaks(s) == 0
    decreases |s|
  {
    if s != [] {
      assert s[0] in s;
      assert forall c | c in s[1..] :: c in s;
      NoLineBreaks(s[1..]);
    }
  }

  /** Splitting `head + text + tail` makes as many lines as splitting `text`. */
  lemma SpliceMiddle(lines: seq<string>, from: Pos, to: Pos, text: string)
    requires WellFormed(lines) && ValidRange(lines, Range(from, to))
    ensures |SplitLines(lines[from.line][..from.ch] + text + lines[to.line][to.ch..])| == |SplitLines(text)|
  {
    var head, tail := lines[from.line][..from.ch], lines[to.line][to.ch..];
    assert NoNewline(lines[from.line]) && NoNewline(lines[to.line]);
    assert forall c | c in head :: c in lines[from.line];
    assert forall c | c in tail :: c in lines[to.line];
    NoLineBreaks(head);
    NoLineBreaks(tail);
    LineBreaksAppend(head, text);
    LineBreaksAppend(head + text, tail);
    SplitCount(head + text + tail);
    SplitCount(text);
  }

  lemma JoinThree(a: seq<string>, m: seq<string>, c: seq<string>)
    requires |m| >= 1
    ensures JoinLines(a + m + c) == Lead(a) + JoinLines(m) + Trail(c)
  {
    assert a + m + c == a + (m + c);
    JoinAppend(a, m + c);
    if c == [] {
      assert m + c == m;
    } else {
      JoinAppend(m, c);
    }
  }

  /** The text before a position: the lines above it, then the head of its line. */
  lemma BeforeLead(lines: seq<string>, p: Pos)
    requires ValidPos(lines, p)
    ensures TextBefore(lines, p) == Lead(lines[..p.line]) + lines[p.line][..p.ch]
  {
    var a, x := lines[..p.line], lines[p.line][..p.ch];
    JoinThree(a, [x], []);
    assert a + [x] + [] == a + [x];
  }

  /** The text from a position on: the rest of its line, then the lines below it. */
  lemma AfterTrail(lines: seq<string>, p: Pos)
    requires ValidPos(lines, p)
    ensures TextAfter(lines, p) == lines[p.line][p.ch..] + Trail(lines[p.line + 1..])
  {
    JoinCons(lines[p.line][p.ch..], lines[p.line + 1..]);
  }

  /** A buffer is its lines above `n`, line `n` and its lines below `n`. */
  lemma SplitAt(lines: seq<string>, n: nat)
    requires n < |lines|
    ensures lines == lines[..n] + [lines[n]] + lines[n + 1..]
  {
    assert lines == lines[..n] + [lines[n]] + lines[n + 1..];
  }

  /** The text of one line between two blocks of lines. */
  lemma JoinAround(a: seq<string>, x: string, c: seq<string>)
    ensures JoinLines(a + [x] + c) == Lead(a) + x + Trail(c)
  {
    JoinThree(a, [x], c);
    assert JoinLines([x]) == x;
  }

  /** The text of a buffer around its line `n`. */
  lemma LinesAround(lines: seq<string>, n: nat)
    requires n < |lines|
    ensures JoinLines(lines) == Lead(lines[..n]) + lines[n] + Trail(lines[n + 1..])
  {
    SplitAt(lines, n);
    JoinAround(lines[..n], lines[n], lines[n + 1..]);
  }

  /** Cutting a line at `ch` and gluing the halves back gives the line. */
  lemma CutLine(before: string, line: string, ch: nat, after: string)
    requires ch <= |line|
    ensures (before + line[..ch]) + (line[ch..] + after) == before + line + after
  {
    assert line[..ch] + line[ch..] == line;
  }

  /** Every position cuts the text of the buffer in two. */
  lemma TextAround(lines: seq<string>, p: Pos)
    requires ValidPos(lines, p)
    ensures TextBefore(lines, p) + TextAfter(lines, p) == JoinLines(lines)
  {
    BeforeLead(lines, p);
    AfterTrail(lines, p);
    LinesAround(lines, p.line);
    CutLine(Lead(lines[..p.line]), lines[p.line], p.ch, Trail(lines[p.line + 1..]));
  }

  /**
   * `replaceRange` changes nothing outside the range: the new text is the old
   * text before `from`, then `text`, then the old text after `to`.
   */
  lemma SpliceText(lines: seq<string>, from: Pos, to: Pos, text: string)
    requires WellFormed(lines) && ValidRange(lines, Range(from, to))
    ensures JoinLines(Splice(lines, from, to, text)) == TextBefore(lines, from) + text + TextAfter(lines, to)
  {
    var head, tail := lines[from.line][..from.ch], lines[to.line][to.ch..];
    var a, m, c := lines[..from.line], SplitLines(head + text + tail), lines[to.line + 1..];
    assert Splice(lines, from, to, text) == a + m + c;
    JoinThree(a, m, c);
    JoinSplit(head + text + tail);
    BeforeLead(lines, from);
    AfterTrail(lines, to);
  }

  /**
   * The last line of a split text is what follows its last line break, and
   * the text splits into one line exactly when it has no line break.
   */
  lemma {:induction false} SplitLinesLast(s: string)
    ensures var t := SplitLines(s); |t| == 1 <==> NoNewline(s)
    ensures var t := SplitLines(s); NoNewline(s) ==> t == [s]
    ensures var t := SplitLines(s); var n := |t[|t| - 1]|;
      n <= |s| && t[|t| - 1] == s[|s| - n..] && (|t| > 1 ==> s[|s| - n - 1] == '\n')
    decreases |s|
  {
    if s != [] {
      SplitLinesLast(s[1..]);
      var rest := SplitLines(s[1..]);
      assert s == [s[0]] + s[1..];
      if s[0] != '\n' {
        assert NoNewline(s[1..]) ==> NoNewline(s);
      }
    }
  }

  /**
   * Where a change that inserts `text` at `from` ends (CodeMirror's
   * `changeEnd`): on the same line, `|text|` columns on, when `text` has no
   * line break; otherwise one line further per line break, at the column
   * just past what follows the last line break.
   */
  function ChangeEnd(from: Pos, text: string): (r: Pos)
    ensures r.line >= from.line
    ensures r.line == from.line <==> NoNewline(text)
    ensures NoNewline(text) ==> r.ch == from.ch + |text|
    ensures !NoNewline(text) ==> r.ch <= |text| && NoNewline(text[|text| - r.ch..]) && text[|text| - r.ch - 1] == '\n'
  {
    var s := SplitLines(text);
    SplitLinesLast(text);
    if |s| == 1 then Pos(from.line, from.ch + |text|) else Pos(from.line + |s| - 1, |s[|s| - 1]|)
  }

  /**
   * How the line-break-free `head` and `tail` sit on the lines of `text`: the
   * head joins the first line, the tail the last one.
   */
  lemma MiddleLines(head: string, text: string, tail: string, line: nat)
    requires NoNewline(head) && NoNewline(tail)
    ensures var mh := SplitLines(head + text);
      && SplitLines(head + text + tail) == mh[..|mh| - 1] + [mh[|mh| - 1] + tail]
      && ChangeEnd(Pos(line, |head|), text) == Pos(line + |mh| - 1, |mh[|mh| - 1]|)
  {
    SplitSuffix(head + text, tail);
    ChangeEndAfter(head, text, line);
  }

  /** The change end of `text` put after `head` is the end of the split `head + text`. */
  lemma ChangeEndAfter(head: string, text: string, line: nat)
    requires NoNewline(head)
    ensures var mh := SplitLines(head + text);
      ChangeEnd(Pos(line, |head|), text) == Pos(line + |mh| - 1, |mh[|mh| - 1]|)
  {
    var st, mh := SplitLines(text), SplitLines(head + text);
    SplitPrefix(head, text);
    SplitLinesLast(text);
    assert |mh| == |st|;
    if |st| == 1 {
      assert st == [text];
    } else {
      assert mh[|mh| - 1] == st[|st| - 1];
    }
  }

  /** A line-break-free part of a line. */
  lemma SliceNoNewline(line: string, i: nat, j: nat)
    requires NoNewline(line) && i <= j <= |line|
    ensures NoNewline(line[i..j])
  {
    assert forall ch | ch in line[i..j] :: ch in line;
  }

  /**
   * In `a + m' + c`, where `m'` is `m` with `tail` glued to its last line, the
   * lines up to the end of `m`'s last line are `a + m`.
   */
  lemma BlockEnd(a: seq<string>, m: seq<string>, tail: string, c: seq<string>, r: seq<string>)
    requires |m| >= 1 && r == a + (m[..|m| - 1] + [m[|m| - 1] + tail]) + c
    ensures |a| + |m| - 1 < |r| && |m[|m| - 1]| <= |r[|a| + |m| - 1]|
    ensures r[..|a| + |m| - 1] + [r[|a| + |m| - 1][..|m[|m| - 1]|]] == a + m
  {
    var k := |m| - 1;
    assert r == (a + m[..k]) + ([m[k] + tail] + c);
    assert r[|a| + k] == m[k] + tail;
    assert (m[k] + tail)[..|m[k]|] == m[k];
    assert m[..k] + [m[k]] == m;
  }

  /** The text of `a + m`: the lead of `a` and then the text of `m`. */
  lemma JoinAfter(a: seq<string>, m: seq<string>)
    requires |m| >= 1
    ensures JoinLines(a + m) == Lead(a) + JoinLines(m)
  {
    JoinThree(a, m, []);
    assert a + m + [] == a + m;
  }

  /**
   * The lines of the new buffer up to the end of the change: the lines above
   * `from`, then the lines that `head + text` splits into.
   */
  lemma SpliceEndLines(lines: seq<string>, from: Pos, to: Pos, text: string)
    requires WellFormed(lines) && ValidRange(lines, Range(from, to))
    ensures var r, e := Splice(lines, from, to, text), ChangeEnd(from, text);
      && ValidPos(r, e)
      && r[..e.line] + [r[e.line][..e.ch]] == lines[..from.line] + SplitLines(lines[from.line][..from.ch] + text)
  {
    var head, tail := lines[from.line][..from.ch], lines[to.line][to.ch..];
    assert NoNewline(lines[from.line]) && NoNewline(lines[to.line]);
    SliceNoNewline(lines[from.line], 0, from.ch);
    SliceNoNewline(lines[to.line], to.ch, |lines[to.line]|);
    assert lines[to.line][to.ch..|lines[to.line]|] == tail;
    var mh := SplitLines(head + text);
    MiddleLines(head, text, tail, from.line);
    var r := Splice(lines, from, to, text);
    BlockEnd(lines[..from.line], mh, tail, lines[to.line + 1..], r);
  }

  /** The end of the change lies in the new buffer, right after the inserted text. */
  lemma SpliceEnd(lines: seq<string>, from: Pos, to: Pos, text: string)
    requires WellFormed(lines) && ValidRange(lines, Range(from, to))
    ensures ValidPos(Splice(lines, from, to, text), ChangeEnd(from, text))
    ensures TextBefore(Splice(lines, from, to, text), ChangeEnd(from, text)) == TextBefore(lines, from) + text
  {
    var a, head := lines[..from.line], lines[from.line][..from.ch];
    SpliceEndLines(lines, from, to, text);
    JoinAfter(a, SplitLines(head + text));
    JoinSplit(head + text);
    BeforeLead(lines, from);
  }

  /**
   * The markdown editor as the AddImage command sees it: the CodeMirror
   * document's lines, its current selection, the record of `replaceRange`
   * calls and whether the editor has the focus.
   */
  class MarkdownEditor {
    var lines: seq<string>
    var selection: Range
    var edits: seq<Edit>
    var focused: bool

    ghost predicate Valid()
      reads this
    {
      WellFormed(lines) && ValidRange(lines, selection)
    }

    /** An editor over `text` with the cursor at the start and no edits. */
    constructor (text: string)
      ensures Valid()
      ensures lines == SplitLines(text) && JoinLines(lines) == text
      ensures selection == Range(Pos(0, 0), Pos(0, 0)) && edits == [] && !focused
    {
      lines := SplitLines(text);
      selection := Range(Pos(0, 0), Pos(0, 0));
      edits := [];
      focused := false;
      JoinSplit(text);
    }

    /** `getCurrentRange()`: reads the selection. */
    method GetCurrentRange() returns (r: Range)
      requires Valid()
      ensures r == selection && ValidRange(lines, r)
    {
      r := selection;
    }

    /** `getLine(n)`: the n-th line, or absent (`undefined`) past the last line. */
    method GetLine(n: nat) returns (l: Option<string>)
      ensures l == LineAt(lines, n)
    {
      l := if n < |lines| then Some(lines[n]) else None;
    }

    /**
     * `replaceRange(text, from, to, origin)`: one edit that puts `text` in
     * place of the range and is recorded with its origin tag. Only the
     * replacement of the current selection is modelled: that selection
     * collapses to the end of the inserted text, which is where CodeMirror
     * maps a selection that covered the replaced range.
     */
    method ReplaceRange(text: string, from: Pos, to: Pos, origin: string)
      requires Valid() && ValidRange(lines, Range(from, to))
      requires selection == Range(from, to)
      modifies this
      ensures Valid()
      ensures lines == Splice(old(lines), from, to, text)
      ensures JoinLines(lines) == TextBefore(old(lines), from) + text + TextAfter(old(lines), to)
      ensures selection == Range(ChangeEnd(from, text), ChangeEnd(from, text))
      ensures TextBefore(lines, selection.from) == TextBefore(old(lines), from) + text
      ensures edits == old(edits) + [Edit(text, from, to, origin)]
      ensures focused == old(focused)
    {
      SpliceText(lines, from, to, text);
      SpliceEnd(lines, from, to, text);
      lines := Splice(lines, from, to, text);
      var end := ChangeEnd(from, text);
      selection := Range(end, end);
      edits := edits + [Edit(text, from, to, origin)];
    }

    /** `focus()`: gives the editor the focus and changes nothing else. */
    method Focus()
      modifies this
      ensures focused
      ensures lines == old(lines) && selection == old(selection) && edits == old(edits)
    {
      focused := true;
    }
  }
}
