/**
 * Prompt templating (`formatPrompt`): every `{{key}}` placeholder of the
 * template is replaced by the key's value, one variable after another in
 * the order of the variables' entries.
 *
 * The code builds a regular expression from each key and uses each value
 * as a replacement string. The model restricts keys to identifier
 * characters and values to text without `$`. Such a value is inserted
 * verbatim, and such a key's pattern matches one fixed text
 * (`KeyPattern`): its placeholder, except for a key made only of digits,
 * whose inner braces the regular-expression grammar reads as a count.
 */
module Prompts {
  import opened Wrappers
  import opened Text

  /** The variables in entry order (`Object.entries`). */
  type Variables = seq<(string, string)>

  predicate IsKeyChar(c: char) {
    ('a' <= c <= 'z') || ('A' <= c <= 'Z') || ('0' <= c <= '9') || c == '_'
  }

  /** A key of identifier characters, whose pattern matches one fixed text. */
  predicate PlainKey(k: string) {
    forall i :: 0 <= i < |k| ==> IsKeyChar(k[i])
  }

  /** A value used verbatim as a replacement string. */
  predicate PlainValue(v: string) {
    forall i :: 0 <= i < |v| ==> v[i] != '$'
  }

  predicate PlainVariables(vars: Variables) {
    forall i :: 0 <= i < |vars| ==> PlainKey(vars[i].0) && PlainValue(vars[i].1)
  }

  function Placeholder(k: string): (p: string)
    ensures |p| == |k| + 4 && p[0] == '{'
  {
    "{{" + k + "}}"
  }

  /** A key made only of decimal digits. */
  predicate DigitKey(k: string) {
    k != [] && forall i :: 0 <= i < |k| ==> IsDigit(k[i])
  }

  /** `n` opening braces. */
  function OpenBraces(n: nat): (r: string)
    ensures |r| == n && forall i :: 0 <= i < n ==> r[i] == '{'
  {
    seq(n, _ => '{')
  }

  /**
   * The text that `new RegExp("{{" + k + "}}", "g")` matches. Under the
   * web-compatibility grammar of ECMAScript regular expressions (Annex B of
   * ECMA-262), "{" + k + "}" after the first brace is a quantifier when `k`
   * is a number, so the pattern matches that many opening braces and then
   * one closing brace. Any other plain key matches its placeholder.
   */
  function KeyPattern(k: string): (p: string)
    ensures p != [] && p[|p| - 1] == '}'
  {
    if DigitKey(k) then OpenBraces(DigitsValue(k)) + "}" else Placeholder(k)
  }

  /** The variables substituted one after another, each globally. */
  function Substitute(text: string, vars: Variables): string
    decreases |vars|
  {
    if vars == [] then text
    else Substitute(ReplaceAll(text, KeyPattern(vars[0].0), vars[0].1), vars[1..])
  }

  /** What `formatPrompt` returns: "" for a missing or empty template. */
  function Formatted(template: Option<string>, vars: Variables): string {
    if template.None? || template.value == "" then "" else Substitute(template.value, vars)
  }

  /** `formatPrompt`: `formatted` is reassigned once per entry. */
  method FormatPrompt(template: Option<string>, vars: Variables) returns (formatted: string)
    requires PlainVariables(vars)
    ensures formatted == Formatted(template, vars)
    ensures template.None? || template == Some("") ==> formatted == ""
  {
    if template.None? || template.value == "" {
      return "";
    }
    formatted := template.value;
    for i := 0 to |vars|
      invariant Substitute(formatted, vars[i..]) == Substitute(template.value, vars)
    {
      SubstituteStep(formatted, vars[i..]);
      assert vars[i..][1..] == vars[i + 1..];
      formatted := ReplaceAll(formatted, KeyPattern(vars[i].0), vars[i].1);
    }
    assert vars[|vars|..] == [];
  }

  lemma SubstituteStep(text: string, vars: Variables)
    requires vars != []
    ensures Substitute(text, vars) == Substitute(ReplaceAll(text, KeyPattern(vars[0].0), vars[0].1), vars[1..])
  {
  }

  // ---------------------------------------------------------------------
  // Properties

  /** With no variables the template comes back unchanged. */
  lemma NoVariablesKeepTemplate(template: string)
    ensures Formatted(Some(template), []) == template
  {
  }

  /**
   * A template holding no placeholder of any given key comes back
   * unchanged: placeholders of absent keys are left intact.
   */
  lemma {:induction false} AbsentKeysKeepTemplate(text: string, vars: Variables)
    requires forall i :: 0 <= i < |vars| ==> !Contains(text, KeyPattern(vars[i].0))
    ensures Substitute(text, vars) == text
    decreases |vars|
  {
    if vars != [] {
      ReplaceAllAbsent(text, KeyPattern(vars[0].0), vars[0].1);
      forall i | 0 <= i < |vars[1..]|
        ensures !Contains(text, KeyPattern(vars[1..][i].0))
      {
        assert vars[1..][i] == vars[i + 1];
      }
      AbsentKeysKeepTemplate(text, vars[1..]);
    }
  }

  /** One variable replaces every occurrence of its pattern, scanning left to right. */
  lemma EveryOccurrenceReplaced(text: string, k: string, v: string)
    ensures Substitute(text, [(k, v)]) == Join(Split(text, KeyPattern(k)), v)
    ensures !DigitKey(k) ==> Substitute(text, [(k, v)]) == Join(Split(text, Placeholder(k)), v)
  {
    ReplaceAllIsSplitJoin(text, KeyPattern(k), v);
  }

  lemma NoBraceNoPlaceholder(s: string, k: string)
    requires forall i :: 0 <= i < |s| ==> s[i] != '{'
    ensures !Contains(s, Placeholder(k))
  {
    var p := Placeholder(k);
    forall j ensures !OccursAt(s, p, j) {
      if 0 <= j && j + |p| <= |s| {
        assert s[j..j + |p|][0] == s[j];
      }
    }
  }

  /**
   * Text between placeholders is kept verbatim: pieces without a brace,
   * joined by the placeholder of a key that is not a number, come back
   * joined by the value.
   */
  lemma TextBetweenPlaceholdersKept(pieces: seq<string>, k: string, v: string)
    requires !DigitKey(k)
    requires forall n, i :: 0 <= n < |pieces| && 0 <= i < |pieces[n]| ==> pieces[n][i] != '{'
    ensures Substitute(Join(pieces, Placeholder(k)), [(k, v)]) == Join(pieces, v)
  {
    PiecesJoinedByPlaceholder(pieces, k, v);
  }

  lemma {:induction false} PiecesJoinedByPlaceholder(pieces: seq<string>, k: string, v: string)
    requires forall n, i :: 0 <= n < |pieces| && 0 <= i < |pieces[n]| ==> pieces[n][i] != '{'
    ensures ReplaceAll(Join(pieces, Placeholder(k)), Placeholder(k), v) == Join(pieces, v)
    decreases |pieces|
  {
    var p := Placeholder(k);
    if |pieces| == 0 {
      assert !OccursAt("", p, 0);
    } else if |pieces| == 1 {
      NoBraceNoPlaceholder(pieces[0], k);
    } else {
      var a := pieces[0];
      var b := Join(pieces[1..], p);
      assert Join(pieces, p) == a + p + b;
      FirstOccurrenceAfter(a, p, b);
      var s := a + p + b;
      assert s[..|a|] == a;
      assert s[|a| + |p|..] == b;
      PiecesJoinedByPlaceholder(pieces[1..], k, v);
    }
  }

  /** Distinct plain keys have placeholders that do not occur in each other. */
  lemma PlaceholdersDistinct(a: string, b: string)
    requires PlainKey(a) && PlainKey(b) && a != b
    ensures !Contains(Placeholder(a), Placeholder(b))
  {
    var pa := Placeholder(a);
    var pb := Placeholder(b);
    forall j ensures !OccursAt(pa, pb, j) {
      if 0 <= j && j + |pb| <= |pa| {
        PlaceholderMismatch(a, b, j);
      }
    }
  }

  lemma PlaceholderMismatch(a: string, b: string, j: nat)
    requires PlainKey(a) && PlainKey(b) && a != b
    requires j + |Placeholder(b)| <= |Placeholder(a)|
    ensures Placeholder(a)[j..j + |Placeholder(b)|] != Placeholder(b)
  {
    var pa := Placeholder(a);
    var pb := Placeholder(b);
    var w := pa[j..j + |pb|];
    if j == 0 && |a| == |b| {
      var i :| 0 <= i < |a| && a[i] != b[i];
      assert w[2 + i] == a[i] && pb[2 + i] == b[i];
    } else if j == 0 {
      assert w[2 + |b|] == a[|b|] && IsKeyChar(a[|b|]);
      assert pb[2 + |b|] == '}';
    } else if j == 1 {
      assert pb[1] == '{';
      assert w[1] == pa[2];
      assert pa[2] != '{' by {
        if |a| > 0 {
          assert pa[2] == a[0] && IsKeyChar(a[0]);
        }
      }
    } else {
      assert pb[0] == '{';
      assert w[0] == pa[j];
      assert pa[j] != '{' by {
        if j < 2 + |a| {
          assert pa[j] == a[j - 2] && IsKeyChar(a[j - 2]);
        }
      }
    }
  }

  /**
   * The placeholder of a positive number is left in place: its pattern asks
   * for an opening brace right before a closing one, and the placeholder
   * has none.
   */
  lemma DigitPlaceholderKept(k: string, v: string)
    requires DigitKey(k) && DigitsValue(k) >= 1
    ensures Substitute(Placeholder(k), [(k, v)]) == Placeholder(k)
  {
    var ph := Placeholder(k);
    var n := DigitsValue(k);
    var pat := KeyPattern(k);
    assert pat[n - 1] == '{' && pat[n] == '}';
    assert forall i :: 0 <= i < 2 ==> ph[i] == '{';
    assert forall i :: 2 <= i < 2 + |k| ==> ph[i] == k[i - 2];
    assert forall i :: 2 + |k| <= i < |ph| ==> ph[i] == '}';
    // a closing brace comes only after the key, and no opening brace follows the key's start
    assert forall i :: 0 <= i < 2 + |k| ==> ph[i] != '}';
    assert forall i :: 2 <= i < |ph| ==> ph[i] != '{';
    forall j | 0 <= j && j + |pat| <= |ph|
      ensures !OccursAt(ph, pat, j)
    {
      var w := ph[j..j + |pat|];
      assert w[n] == ph[j + n] && w[n - 1] == ph[j + n - 1];
    }
    assert !Contains(ph, pat);
    ReplaceAllAbsent(ph, pat, v);
  }

  /** So `{{1}}` stays as it is, while `{{a}}` takes the value. */
  lemma NumberKeyExample()
    ensures Substitute("{{1}}", [("1", "X")]) == "{{1}}"
    ensures Substitute("{{a}}", [("a", "X")]) == "X"
  {
    var one := "1";
    assert one[..0] == "";
    assert DigitsValue(one) == 1;
    assert Placeholder(one) == "{{1}}";
    DigitPlaceholderKept(one, "X");
    var a := "a";
    assert !IsDigit(a[0]);
    assert KeyPattern(a) == Placeholder(a) == "{{a}}";
    ReplaceWhole(Placeholder(a), "X");
    SubstituteStep(Placeholder(a), [(a, "X")]);
    assert [(a, "X")][1..] == [];
  }

  /** The key "0" asks for no opening brace, so each closing brace of its placeholder takes the value. */
  lemma ZeroKeyExample()
    ensures Substitute("{{0}}", [("0", "X")]) == "{{0XX"
  {
    var zero := "0";
    assert zero[..0] == "";
    assert DigitsValue(zero) == 0;
    assert KeyPattern(zero) == "}";
    var t := "{{0}}";
    var a, b := "{{0", "}";
    assert t == a + "}" + b;
    FirstOccurrenceAfter(a, "}", b);
    assert (a + "}" + b)[|a| + 1..] == b;
    assert b == "" + "}" + "";
    FirstOccurrenceAfter("", "}", "");
    assert b[1..] == "";
    assert !OccursAt("", "}", 0);
    assert ReplaceAll(b, "}", "X") == "X";
    assert ReplaceAll(t, "}", "X") == "{{0X" + "X";
    SubstituteStep(t, [(zero, "X")]);
    assert [(zero, "X")][1..] == [];
  }

  lemma ReplaceWhole(p: string, v: string)
    requires p != []
    ensures ReplaceAll(p, p, v) == v
  {
    assert OccursAt(p, p, 0);
    assert p[|p|..] == [];
    assert !OccursAt(p[|p|..], p, 0);
  }

  /**
   * Substitution follows entry order: a later key rewrites a placeholder
   * that an earlier value introduced, and swapping the entries does not.
   */
  lemma LaterKeyRewritesEarlierValue(a: string, b: string, x: string)
    requires PlainKey(a) && PlainKey(b) && a != b && !DigitKey(a) && !DigitKey(b)
    requires forall i :: 0 <= i < |x| ==> x[i] != '{'
    ensures Substitute(Placeholder(a), [(a, Placeholder(b)), (b, x)]) == x
    ensures Substitute(Placeholder(a), [(b, x), (a, Placeholder(b))]) == Placeholder(b)
    ensures x != Placeholder(b)
  {
    var pa := Placeholder(a);
    var pb := Placeholder(b);
    ReplaceWhole(pa, pb);
    ReplaceWhole(pb, x);
    var first: Variables := [(a, pb), (b, x)];
    assert first[1..] == [(b, x)] && first[1..][1..] == [];
    assert Substitute(pb, [(b, x)]) == Substitute(x, []) == x;
    assert Substitute(pa, first) == Substitute(pb, [(b, x)]);
    PlaceholdersDistinct(a, b);
    ReplaceAllAbsent(pa, pb, x);
    var second: Variables := [(b, x), (a, pb)];
    assert second[1..] == [(a, pb)] && second[1..][1..] == [];
    assert Substitute(pa, [(a, pb)]) == Substitute(pb, []) == pb;
    assert Substitute(pa, second) == Substitute(pa, [(a, pb)]);
    if |x| > 0 {
      assert x[0] != pb[0];
    }
  }
}
