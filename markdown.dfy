/**
 * The README clean-up before rendering: long runs of blank lines are cut
 * to three newlines, spaces and tabs at line ends are removed, and the
 * text is trimmed; an empty result shows the placeholder instead.
 */
module Markdown {
  import opened Wrappers
  import opened Text

  predicate IsBlank(c: char) {
    c == ' ' || c == '\t'
  }

  /** The characters before which a multiline `$` matches. */
  predicate IsLineTerminator(c: char) {
    c == '\n' || c == '\r' || c == '\U{2028}' || c == '\U{2029}'
  }

  /** The length of the run of `c` at the start of `s`. */
  function RunOf(s: string, c: char): (k: nat)
    ensures k <= |s|
    ensures forall i :: 0 <= i < k ==> s[i] == c
    ensures k < |s| ==> s[k] != c
  {
    if s == [] || s[0] != c then 0 else 1 + RunOf(s[1..], c)
  }

  /** The length of the run of spaces and tabs at the start of `s`. */
  function BlankRun(s: string): (k: nat)
    ensures k <= |s|
    ensures forall i :: 0 <= i < k ==> IsBlank(s[i])
    ensures k < |s| ==> !IsBlank(s[k])
  {
    if s == [] || !IsBlank(s[0]) then 0 else 1 + BlankRun(s[1..])
  }

  /** `replace(/\n{4,}/g, '\n\n\n')`: each maximal run of four or more newlines becomes three. */
  function CapNewlines(s: string): string
    decreases |s|
  {
    if s == [] then []
    else if s[0] == '\n' then
      var k := RunOf(s, '\n');
      (if k >= 4 then "\n\n\n" else s[..k]) + CapNewlines(s[k..])
    else [s[0]] + CapNewlines(s[1..])
  }

  /** `replace(/[ \t]+$/gm, '')`: a run of spaces and tabs just before a line end or the end goes. */
  function StripLineEnds(s: string): string
    decreases |s|
  {
    if s == [] then []
    else if IsBlank(s[0]) then
      var k := BlankRun(s);
      (if k == |s| || IsLineTerminator(s[k]) then [] else s[..k]) + StripLineEnds(s[k..])
    else [s[0]] + StripLineEnds(s[1..])
  }

  /** The characters of `s` other than newlines, in order. */
  function Unbroken(s: string): string {
    if s == [] then [] else (if s[0] == '\n' then [] else [s[0]]) + Unbroken(s[1..])
  }

  /** The characters of `s` other than spaces and tabs, in order. */
  function Unspaced(s: string): string {
    if s == [] then [] else (if IsBlank(s[0]) then [] else [s[0]]) + Unspaced(s[1..])
  }

  lemma {:induction false} UnbrokenAppend(a: string, b: string)
    ensures Unbroken(a + b) == Unbroken(a) + Unbroken(b)
    decreases |a|
  {
    if a != [] {
      assert (a + b)[1..] == a[1..] + b;
      UnbrokenAppend(a[1..], b);
    } else {
      assert a + b == b;
    }
  }

  lemma {:induction false} UnspacedAppend(a: string, b: string)
    ensures Unspaced(a + b) == Unspaced(a) + Unspaced(b)
    decreases |a|
  {
    if a != [] {
      assert (a + b)[1..] == a[1..] + b;
      UnspacedAppend(a[1..], b);
    } else {
      assert a + b == b;
    }
  }

  lemma {:induction false} UnbrokenOfNewlines(s: string)
    requires forall i :: 0 <= i < |s| ==> s[i] == '\n'
    ensures Unbroken(s) == []
    decreases |s|
  {
    if s != [] {
      UnbrokenOfNewlines(s[1..]);
    }
  }

  lemma {:induction false} UnspacedOfBlanks(s: string)
    requires forall i :: 0 <= i < |s| ==> IsBlank(s[i])
    ensures Unspaced(s) == []
    decreases |s|
  {
    if s != [] {
      UnspacedOfBlanks(s[1..]);
    }
  }

  /** Capping newline runs removes newlines and nothing else. */
  lemma {:induction false} CapNewlinesOnlyNewlines(s: string)
    ensures Unbroken(CapNewlines(s)) == Unbroken(s)
    decreases |s|
  {
    if s != [] {
      if s[0] == '\n' {
        var k := RunOf(s, '\n');
        var head := if k >= 4 then "\n\n\n" else s[..k];
        assert CapNewlines(s) == head + CapNewlines(s[k..]);
        CapNewlinesOnlyNewlines(s[k..]);
        UnbrokenAfterNewlines(head, CapNewlines(s[k..]));
        UnbrokenAfterNewlines(s[..k], s[k..]);
        assert s == s[..k] + s[k..];
      } else {
        assert CapNewlines(s) == [s[0]] + CapNewlines(s[1..]);
        CapNewlinesOnlyNewlines(s[1..]);
        UnbrokenCons(s[0], CapNewlines(s[1..]));
      }
    }
  }

  lemma UnbrokenAfterNewlines(head: string, rest: string)
    requires forall i :: 0 <= i < |head| ==> head[i] == '\n'
    ensures Unbroken(head + rest) == Unbroken(rest)
  {
    UnbrokenAppend(head, rest);
    UnbrokenOfNewlines(head);
  }

  lemma UnbrokenCons(c: char, rest: string)
    requires c != '\n'
    ensures Unbroken([c] + rest) == [c] + Unbroken(rest)
  {
    assert ([c] + rest)[1..] == rest;
  }

  /** Stripping line ends removes spaces and tabs and nothing else. */
  lemma {:induction false} StripLineEndsOnlyBlanks(s: string)
    ensures Unspaced(StripLineEnds(s)) == Unspaced(s)
    decreases |s|
  {
    if s != [] {
      if IsBlank(s[0]) {
        var k := BlankRun(s);
        var head := if k == |s| || IsLineTerminator(s[k]) then [] else s[..k];
        StripLineEndsOnlyBlanks(s[k..]);
        UnspacedAppend(head, StripLineEnds(s[k..]));
        UnspacedOfBlanks(s[..k]);
        assert s == s[..k] + s[k..];
        UnspacedAppend(s[..k], s[k..]);
      } else {
        StripLineEndsOnlyBlanks(s[1..]);
        UnspacedAppend([s[0]], StripLineEnds(s[1..]));
      }
    }
  }

  /** Removing newlines changes none of the visible characters. */
  lemma {:induction false} VisibleUnbroken(s: string)
    ensures Visible(Unbroken(s)) == Visible(s)
    decreases |s|
  {
    if s != [] {
      var h := if s[0] == '\n' then [] else [s[0]];
      VisibleUnbroken(s[1..]);
      VisibleConcat(h, Unbroken(s[1..]));
      assert s == [s[0]] + s[1..];
      VisibleConcat([s[0]], s[1..]);
    }
  }

  /** Removing spaces and tabs changes none of the visible characters. */
  lemma {:induction false} VisibleUnspaced(s: string)
    ensures Visible(Unspaced(s)) == Visible(s)
    decreases |s|
  {
    if s != [] {
      var h := if IsBlank(s[0]) then [] else [s[0]];
      VisibleUnspaced(s[1..]);
      VisibleConcat(h, Unspaced(s[1..]));
      assert s == [s[0]] + s[1..];
      VisibleConcat([s[0]], s[1..]);
    }
  }

  /** The cap keeps every visible character, in order. */
  lemma CapNewlinesVisible(s: string)
    ensures Visible(CapNewlines(s)) == Visible(s)
  {
    CapNewlinesOnlyNewlines(s);
    VisibleUnbroken(CapNewlines(s));
    VisibleUnbroken(s);
  }

  /** The strip keeps every visible character, in order. */
  lemma StripLineEndsVisible(s: string)
    ensures Visible(StripLineEnds(s)) == Visible(s)
  {
    StripLineEndsOnlyBlanks(s);
    VisibleUnspaced(StripLineEnds(s));
    VisibleUnspaced(s);
  }

  /** `n` newlines. */
  function Newlines(n: nat): (r: string)
    ensures |r| == n && forall i :: 0 <= i < n ==> r[i] == '\n'
  {
    seq(n, _ => '\n')
  }

  /**
   * A maximal run of `n` newlines is cut to exactly three when `n` is four
   * or more and kept otherwise; the rest of the text is capped on its own.
   */
  lemma CapNewlineRun(n: nat, rest: string)
    requires n >= 1 && (rest == [] || rest[0] != '\n')
    ensures CapNewlines(Newlines(n) + rest) == (if n >= 4 then "\n\n\n" else Newlines(n)) + CapNewlines(rest)
  {
    var s := Newlines(n) + rest;
    assert RunOf(s, '\n') == n;
    assert s[..n] == Newlines(n) && s[n..] == rest;
  }

  /** Text with no four newlines in a row is left as it is by the cap. */
  lemma {:induction false} CapNewlinesKeepsShortRuns(s: string)
    requires !HasFourNewlines(s)
    ensures CapNewlines(s) == s
    decreases |s|
  {
    if s != [] {
      if s[0] == '\n' {
        var k := RunOf(s, '\n');
        assert !FourAt(s, 0);
        assert k < 4;
        SliceKeepsCap(s, k, |s|);
        assert s[k..|s|] == s[k..];
        CapNewlinesKeepsShortRuns(s[k..]);
        assert s == s[..k] + s[k..];
      } else {
        SliceKeepsCap(s, 1, |s|);
        assert s[1..|s|] == s[1..];
        CapNewlinesKeepsShortRuns(s[1..]);
        assert s == [s[0]] + s[1..];
      }
    }
  }

  /** No space or tab stands at the end of a line or of the text. */
  predicate NoTrailingBlanks(s: string) {
    forall i :: 0 <= i < |s| && IsBlank(s[i]) ==> i + 1 < |s| && !IsLineTerminator(s[i + 1])
  }

  lemma NoTrailingBlanksCons(c: char, r: string)
    ensures NoTrailingBlanks([c] + r) <==>
      (IsBlank(c) ==> r != [] && !IsLineTerminator(r[0])) && NoTrailingBlanks(r)
  {
    var s := [c] + r;
    assert forall i :: 1 <= i < |s| ==> s[i] == r[i - 1];
    if NoTrailingBlanks(s) {
      forall i | 0 <= i < |r| && IsBlank(r[i])
        ensures i + 1 < |r| && !IsLineTerminator(r[i + 1])
      {
        assert s[i + 1] == r[i];
        assert i + 2 < |s| && !IsLineTerminator(s[i + 2]);
        assert s[i + 2] == r[i + 1];
      }
      if IsBlank(c) {
        assert IsBlank(s[0]);
        assert 1 < |s| && !IsLineTerminator(s[1]);
      }
    }
  }

  lemma {:induction false} NoTrailingBlanksAfterNewlines(head: string, r: string)
    requires forall i :: 0 <= i < |head| ==> head[i] == '\n'
    ensures NoTrailingBlanks(head + r) <==> NoTrailingBlanks(r)
    decreases |head|
  {
    if head != [] {
      assert head + r == [head[0]] + (head[1..] + r);
      NoTrailingBlanksCons(head[0], head[1..] + r);
      NoTrailingBlanksAfterNewlines(head[1..], r);
    } else {
      assert head + r == r;
    }
  }

  lemma {:induction false} BlanksBeforeLineText(b: string, r: string)
    requires forall i :: 0 <= i < |b| ==> IsBlank(b[i])
    requires r != [] && !IsLineTerminator(r[0]) && NoTrailingBlanks(r)
    ensures NoTrailingBlanks(b + r)
    decreases |b|
  {
    if b != [] {
      assert b + r == [b[0]] + (b[1..] + r);
      BlanksBeforeLineText(b[1..], r);
      NoTrailingBlanksCons(b[0], b[1..] + r);
      assert (b[1..] + r)[0] == if |b| > 1 then b[1] else r[0];
    } else {
      assert b + r == r;
    }
  }

  /** After the strip no space or tab ends a line. */
  lemma {:induction false} StripLineEndsNoTrailing(s: string)
    ensures NoTrailingBlanks(StripLineEnds(s))
    decreases |s|
  {
    if s != [] {
      if IsBlank(s[0]) {
        var k := BlankRun(s);
        StripLineEndsNoTrailing(s[k..]);
        if k == |s| || IsLineTerminator(s[k]) {
          assert StripLineEnds(s) == StripLineEnds(s[k..]);
        } else {
          assert s[k..] == [s[k]] + s[k + 1..];
          StripOther(s[k], s[k + 1..]);
          BlanksBeforeLineText(s[..k], StripLineEnds(s[k..]));
        }
      } else {
        assert s == [s[0]] + s[1..];
        StripOther(s[0], s[1..]);
        StripLineEndsNoTrailing(s[1..]);
        NoTrailingBlanksCons(s[0], StripLineEnds(s[1..]));
      }
    }
  }

  /** Text in which no line ends in a space or tab is left as it is by the strip. */
  lemma {:induction false} StripLineEndsKeepsCleanLines(s: string)
    requires NoTrailingBlanks(s)
    ensures StripLineEnds(s) == s
    decreases |s|
  {
    if s != [] {
      if IsBlank(s[0]) {
        var k := BlankRun(s);
        assert IsBlank(s[k - 1]);
        assert k < |s| && !IsLineTerminator(s[k]);
        SliceNoTrailing(s, k, |s|);
        StripLineEndsKeepsCleanLines(s[k..]);
        assert s == s[..k] + s[k..];
      } else {
        assert s == [s[0]] + s[1..];
        NoTrailingBlanksCons(s[0], s[1..]);
        StripLineEndsKeepsCleanLines(s[1..]);
      }
    }
  }

  /** A run of spaces and tabs at the end of a line or of the text is removed. */
  lemma StripRunAtLineEnd(b: string, rest: string)
    requires b != [] && forall i :: 0 <= i < |b| ==> IsBlank(b[i])
    requires rest == [] || IsLineTerminator(rest[0])
    ensures StripLineEnds(b + rest) == StripLineEnds(rest)
  {
    var s := b + rest;
    assert BlankRun(s) == |b|;
    assert s[|b|..] == rest;
  }

  /** The cap keeps every space and tab next to the character that followed it. */
  lemma {:induction false} CapNewlinesNoTrailing(s: string)
    requires NoTrailingBlanks(s)
    ensures NoTrailingBlanks(CapNewlines(s))
    decreases |s|
  {
    if s != [] {
      if s[0] == '\n' {
        var k := RunOf(s, '\n');
        var head := if k >= 4 then "\n\n\n" else s[..k];
        assert s == s[..k] + s[k..];
        NoTrailingBlanksAfterNewlines(s[..k], s[k..]);
        CapNewlinesNoTrailing(s[k..]);
        assert CapNewlines(s) == head + CapNewlines(s[k..]);
        NoTrailingBlanksAfterNewlines(head, CapNewlines(s[k..]));
      } else {
        assert s == [s[0]] + s[1..];
        NoTrailingBlanksCons(s[0], s[1..]);
        CapNewlinesNoTrailing(s[1..]);
        CapOther(s[0], s[1..]);
        if IsBlank(s[0]) {
          CapNewlinesHead(s[1..]);
        }
        NoTrailingBlanksCons(s[0], CapNewlines(s[1..]));
      }
    }
  }

  lemma SliceNoTrailing(s: string, lo: nat, hi: nat)
    requires lo <= hi <= |s| && NoTrailingBlanks(s)
    requires hi == |s| || hi == lo || !IsBlank(s[hi - 1])
    ensures NoTrailingBlanks(s[lo..hi])
  {
    var t := s[lo..hi];
    forall i | 0 <= i < |t| && IsBlank(t[i])
      ensures i + 1 < |t| && !IsLineTerminator(t[i + 1])
    {
      assert t[i] == s[lo + i];
      if i + 1 < |t| {
        assert t[i + 1] == s[lo + i + 1];
      }
    }
  }

  /** Trimming keeps a contiguous part that ends in a visible character. */
  lemma TrimNoTrailing(s: string)
    requires NoTrailingBlanks(s)
    ensures NoTrailingBlanks(Trim(s))
  {
    TrimStartNoTrailing(s);
    TrimEndNoTrailing(TrimStart(s));
  }

  lemma TrimStartNoTrailing(s: string)
    requires NoTrailingBlanks(s)
    ensures NoTrailingBlanks(TrimStart(s))
  {
    var t := TrimStart(s);
    assert t == s[|s| - |t|..|s|];
    SliceNoTrailing(s, |s| - |t|, |s|);
  }

  lemma TrimEndNoTrailing(t: string)
    requires NoTrailingBlanks(t)
    ensures NoTrailingBlanks(TrimEnd(t))
  {
    var r := TrimEnd(t);
    assert r == t[0..|r|];
    if r != [] {
      assert t[|r| - 1] == r[|r| - 1];
    }
    SliceNoTrailing(t, 0, |r|);
  }

  /** Four newlines in a row start at index `i` of `s`. */
  predicate FourAt(s: string, i: int) {
    0 <= i && i + 3 < |s| && s[i] == '\n' && s[i + 1] == '\n' && s[i + 2] == '\n' && s[i + 3] == '\n'
  }

  /** `s` has four newlines in a row somewhere. */
  predicate HasFourNewlines(s: string) {
    exists i :: 0 <= i < |s| && FourAt(s, i)
  }

  lemma FourAtShift(a: string, b: string, i: int)
    requires i >= 0
    ensures FourAt(a + b, i + |a|) <==> FourAt(b, i)
  {
    if 0 <= i && i + 3 < |b| {
      assert (a + b)[i + |a|] == b[i] && (a + b)[i + |a| + 1] == b[i + 1];
      assert (a + b)[i + |a| + 2] == b[i + 2] && (a + b)[i + |a| + 3] == b[i + 3];
    }
  }

  lemma FourAtSlice(s: string, lo: nat, hi: nat, i: int)
    requires lo <= hi <= |s|
    ensures FourAt(s[lo..hi], i) ==> FourAt(s, lo + i)
  {
    if FourAt(s[lo..hi], i) {
      assert s[lo..hi][i] == s[lo + i] && s[lo..hi][i + 3] == s[lo + i + 3];
    assert s[lo..hi][i + 1] == s[lo + i + 1] && s[lo..hi][i + 2] == s[lo + i + 2];
    }
  }

  /** The clean-up as written: cap the newline runs, then strip line ends, then trim. */
  function CleanedContentAsWritten(content: Option<string>): (r: string)
    ensures r == [] || (!IsJsWhitespace(r[0]) && !IsJsWhitespace(r[|r| - 1]))
    ensures NoTrailingBlanks(r)
    ensures content.Some? ==> Visible(r) == Visible(content.value)
    ensures content.None? || content.value == "" ==> r == ""
  {
    if content.None? || content.value == "" then ""
    else
      var stripped := StripLineEnds(CapNewlines(content.value));
      CapNewlinesVisible(content.value);
      StripLineEndsVisible(CapNewlines(content.value));
      StripLineEndsNoTrailing(CapNewlines(content.value));
      TrimNoTrailing(stripped);
      Trim(stripped)
  }

  lemma CapOther(c: char, rest: string)
    requires c != '\n'
    ensures CapNewlines([c] + rest) == [c] + CapNewlines(rest)
  {
    assert ([c] + rest)[1..] == rest;
  }

  lemma CapSingleNewline(c: char, rest: string)
    requires c != '\n'
    ensures CapNewlines(['\n', c] + rest) == ['\n', c] + CapNewlines(rest)
  {
    var s := ['\n', c] + rest;
    var tail := [c] + rest;
    assert s == ['\n'] + tail;
    assert s[1..] == tail;
    assert RunOf(tail, '\n') == 0;
    assert RunOf(s, '\n') == 1;
    assert CapNewlines(s) == s[..1] + CapNewlines(tail);
    assert s[..1] == ['\n'];
    CapOther(c, rest);
  }

  lemma StripOther(c: char, rest: string)
    requires !IsBlank(c)
    ensures StripLineEnds([c] + rest) == [c] + StripLineEnds(rest)
  {
    assert ([c] + rest)[1..] == rest;
  }

  lemma StripBlankLine(rest: string)
    ensures StripLineEnds([' ', '\n'] + rest) == ['\n'] + StripLineEnds(rest)
  {
    var s := [' ', '\n'] + rest;
    assert s[1..] == ['\n'] + rest;
    assert BlankRun(s[1..]) == 0;
    assert BlankRun(s) == 1;
    StripOther('\n', rest);
  }

  /** The text `c`, three lines holding one space each, then `d`: four line breaks in all. */
  function SpacedLines(c: char, d: char): string {
    [c, '\n', ' ', '\n', ' ', '\n', ' ', '\n', d]
  }

  /** The single newlines of `SpacedLines` are untouched by the cap. */
  lemma CapSpacedLines(c: char, d: char)
    requires !IsJsWhitespace(c) && !IsJsWhitespace(d)
    ensures CapNewlines(SpacedLines(c, d)) == SpacedLines(c, d)
  {
    var tail := ['\n', d];
    var l3 := ['\n', ' '] + tail;
    var l2 := ['\n', ' '] + l3;
    var l1 := ['\n', ' '] + l2;
    assert SpacedLines(c, d) == [c] + l1;
    assert tail == ['\n', d] + [];
    CapSingleNewline(d, []);
    CapSingleNewline(' ', tail);
    CapSingleNewline(' ', l3);
    CapSingleNewline(' ', l2);
    CapOther(c, l1);
  }

  /** Three lines holding one space each before `d` strip to three newlines. */
  lemma StripThreeBlankLines(d: char)
    requires !IsJsWhitespace(d)
    ensures StripLineEnds([' ', '\n'] + ([' ', '\n'] + ([' ', '\n'] + [d]))) == ['\n'] + (['\n'] + (['\n'] + [d]))
  {
    var b := [d];
    var l3 := [' ', '\n'] + b;
    var l2 := [' ', '\n'] + l3;
    assert b == [d] + [];
    StripOther(d, []);
    StripBlankLine(b);
    StripBlankLine(l3);
    StripBlankLine(l2);
  }

  /** Stripping the blank line ends of `SpacedLines` leaves four newlines in a row. */
  lemma StripSpacedLines(c: char, d: char)
    requires !IsJsWhitespace(c) && !IsJsWhitespace(d)
    ensures StripLineEnds(SpacedLines(c, d)) == [c, '\n', '\n', '\n', '\n', d]
  {
    var l1 := [' ', '\n'] + ([' ', '\n'] + ([' ', '\n'] + [d]));
    var m := ['\n'] + (['\n'] + (['\n'] + [d]));
    StripThreeBlankLines(d);
    assert SpacedLines(c, d) == [c] + (['\n'] + l1);
    StripOther('\n', l1);
    StripOther(c, ['\n'] + l1);
    assert [c] + (['\n'] + m) == [c, '\n', '\n', '\n', '\n', d];
  }

  /** A text that starts and ends with a visible character is its own trim. */
  lemma TrimVisibleEnds(t: string)
    requires t != [] && !IsJsWhitespace(t[0]) && !IsJsWhitespace(t[|t| - 1])
    ensures Trim(t) == t
  {
    assert TrimStart(t) == t;
  }

  /**
   * Lines holding only spaces turn into newlines after the cap has run:
   * `"a\n \n \n \nb"` (c = 'a', d = 'b') comes out as `"a\n\n\n\nb"`.
   */
  lemma AsWrittenKeepsFourNewlines(c: char, d: char)
    requires !IsJsWhitespace(c) && !IsJsWhitespace(d)
    ensures CleanedContentAsWritten(Some(SpacedLines(c, d))) == [c, '\n', '\n', '\n', '\n', d]
    ensures HasFourNewlines(CleanedContentAsWritten(Some(SpacedLines(c, d))))
  {
    CapSpacedLines(c, d);
    StripSpacedLines(c, d);
    var t := [c, '\n', '\n', '\n', '\n', d];
    TrimVisibleEnds(t);
    assert FourAt(t, 1);
  }

  // ---------------------------------------------------------------------
  // The clean-up in the order its comment intends

  /** The first character survives the cap: a newline run starts with a newline. */
  lemma CapNewlinesHead(s: string)
    requires s != []
    ensures CapNewlines(s) != [] && (s[0] == '\n' ==> CapNewlines(s)[0] == '\n')
    ensures s[0] != '\n' ==> CapNewlines(s)[0] == s[0]
  {
  }

  /** No newline run of `CapNewlines(s)` is longer than three. */
  lemma {:induction false} CapNewlinesCaps(s: string)
    ensures !HasFourNewlines(CapNewlines(s))
    decreases |s|
  {
    if s != [] {
      if s[0] == '\n' {
        var k := RunOf(s, '\n');
        var head := if k >= 4 then "\n\n\n" else s[..k];
        CapNewlinesCaps(s[k..]);
        if s[k..] != [] {
          CapNewlinesHead(s[k..]);
        }
        assert CapNewlines(s) == head + CapNewlines(s[k..]);
        ShortRunNoFour(head, CapNewlines(s[k..]));
      } else {
        CapNewlinesCaps(s[1..]);
        assert CapNewlines(s) == [s[0]] + CapNewlines(s[1..]);
        ConsNoFour(s[0], CapNewlines(s[1..]));
      }
    }
  }

  /** At most three characters before a text that does not start with a newline add no run of four. */
  lemma ShortRunNoFour(head: string, rest: string)
    requires |head| <= 3 && !HasFourNewlines(rest)
    requires rest == [] || rest[0] != '\n'
    ensures !HasFourNewlines(head + rest)
  {
    var r := head + rest;
    forall i | 0 <= i < |r|
      ensures !FourAt(r, i)
    {
      if i >= |head| {
        FourAtShift(head, rest, i - |head|);
      } else if rest != [] {
        assert r[|head|] == rest[0];
      }
    }
  }

  /** A character other than a newline before a text adds no run of four. */
  lemma ConsNoFour(c: char, rest: string)
    requires c != '\n' && !HasFourNewlines(rest)
    ensures !HasFourNewlines([c] + rest)
  {
    var r := [c] + rest;
    forall i | 0 <= i < |r|
      ensures !FourAt(r, i)
    {
      if i >= 1 {
        FourAtShift([c], rest, i - 1);
      }
    }
  }

  /** A slice of a text adds no newline run. */
  lemma SliceKeepsCap(s: string, lo: nat, hi: nat)
    requires lo <= hi <= |s| && !HasFourNewlines(s)
    ensures !HasFourNewlines(s[lo..hi])
  {
    forall i | 0 <= i < hi - lo
      ensures !FourAt(s[lo..hi], i)
    {
      FourAtSlice(s, lo, hi, i);
    }
  }

  /** Trimming keeps a contiguous part of the text, so it adds no newline run. */
  lemma TrimKeepsCap(s: string)
    requires !HasFourNewlines(s)
    ensures !HasFourNewlines(Trim(s))
  {
    var t := TrimStart(s);
    var r := Trim(s);
    assert t == s[|s| - |t|..|s|];
    SliceKeepsCap(s, |s| - |t|, |s|);
    assert r == TrimEnd(t) && r == t[0..|r|];
    SliceKeepsCap(t, 0, |r|);
  }

  /**
   * The clean-up with the line ends stripped before the newline runs are
   * capped, so that blank lines made empty are capped too.
   */
  function CleanedContent(content: Option<string>): (r: string)
    ensures !HasFourNewlines(r)
    ensures r == [] || (!IsJsWhitespace(r[0]) && !IsJsWhitespace(r[|r| - 1]))
    ensures NoTrailingBlanks(r)
    ensures content.Some? ==> Visible(r) == Visible(content.value)
    ensures content.None? || content.value == "" ==> r == ""
  {
    if content.None? || content.value == "" then ""
    else
      var capped := CapNewlines(StripLineEnds(content.value));
      CapNewlinesCaps(StripLineEnds(content.value));
      TrimKeepsCap(capped);
      StripLineEndsVisible(content.value);
      CapNewlinesVisible(StripLineEnds(content.value));
      StripLineEndsNoTrailing(content.value);
      CapNewlinesNoTrailing(StripLineEnds(content.value));
      TrimNoTrailing(capped);
      Trim(capped)
  }

  /** Cleaning text that is already clean changes nothing. */
  lemma CleanedContentIdempotent(content: Option<string>)
    ensures CleanedContent(Some(CleanedContent(content))) == CleanedContent(content)
  {
    var r := CleanedContent(content);
    if r != "" {
      CleanTextKept(r);
    }
  }

  /** Text without trailing blanks, runs of four newlines or outer whitespace is kept as it is. */
  lemma CleanTextKept(r: string)
    requires r != [] && !IsJsWhitespace(r[0]) && !IsJsWhitespace(r[|r| - 1])
    requires NoTrailingBlanks(r) && !HasFourNewlines(r)
    ensures CleanedContent(Some(r)) == r
  {
    StripLineEndsKeepsCleanLines(r);
    CapNewlinesKeepsShortRuns(r);
    TrimVisibleEnds(r);
    assert CleanedContent(Some(r)) == Trim(CapNewlines(StripLineEnds(r)));
  }

  /** Spaces, tabs and newlines only. */
  predicate AllWhitespace(s: string) {
    forall i :: 0 <= i < |s| ==> s[i] == ' ' || s[i] == '\t' || s[i] == '\n'
  }

  lemma {:induction false} StripLineEndsWhitespace(s: string)
    requires AllWhitespace(s)
    ensures AllWhitespace(StripLineEnds(s))
    decreases |s|
  {
    if s != [] {
      if IsBlank(s[0]) {
        var k := BlankRun(s);
        StripLineEndsWhitespace(s[k..]);
      } else {
        StripLineEndsWhitespace(s[1..]);
      }
    }
  }

  lemma {:induction false} CapNewlinesWhitespace(s: string)
    requires AllWhitespace(s)
    ensures AllWhitespace(CapNewlines(s))
    decreases |s|
  {
    if s != [] {
      if s[0] == '\n' {
        var k := RunOf(s, '\n');
        CapNewlinesWhitespace(s[k..]);
      } else {
        CapNewlinesWhitespace(s[1..]);
      }
    }
  }

  /** A text of spaces, tabs and newlines cleans to "" and shows the placeholder. */
  lemma WhitespaceOnlyIsEmpty(content: string)
    requires AllWhitespace(content)
    ensures CleanedContent(Some(content)) == ""
    ensures CleanedContentAsWritten(Some(content)) == ""
  {
    if content != "" {
      StripLineEndsWhitespace(content);
      CapNewlinesWhitespace(StripLineEnds(content));
      var capped := CapNewlines(StripLineEnds(content));
      TrimEmpty(capped);
      CapNewlinesWhitespace(content);
      StripLineEndsWhitespace(CapNewlines(content));
      TrimEmpty(StripLineEnds(CapNewlines(content)));
    }
  }

  /** What the README area shows. */
  datatype ReadmeView = Rendered(markdown: string) | Placeholder(githubLink: Option<string>)

  /** The placeholder's link: the repository's README anchor when there is a repository. */
  function ReadmeLink(repoUrl: Option<string>): (r: Option<string>)
    ensures r.Some? <==> OrNull(repoUrl).Some?
    ensures r.Some? ==> r.value == repoUrl.value + "#readme"
  {
    if OrNull(repoUrl).Some? then Some(repoUrl.value + "#readme") else None
  }

  /** `MarkdownRenderer`: the cleaned text, or the placeholder when nothing is left. */
  function RenderReadme(content: Option<string>, repoUrl: Option<string>): (v: ReadmeView)
    ensures v.Placeholder? <==> CleanedContent(content) == ""
    ensures v.Rendered? ==> v.markdown == CleanedContent(content)
    ensures v.Placeholder? ==> v.githubLink == ReadmeLink(repoUrl)
  {
    var cleaned := CleanedContent(content);
    if cleaned == "" then Placeholder(ReadmeLink(repoUrl)) else Rendered(cleaned)
  }
}
