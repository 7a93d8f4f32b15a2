/**
 * The submission form's schema: which inputs the public submit action
 * accepts at all.
 */
module SubmissionInput {
  import opened Wrappers
  import opened Text

  datatype SubmitInput = SubmitInput(
    name: string,
    email: string,
    serverName: string,
    repoUrl: string,
    description: Option<string>)

  const MAX_FIELD: nat := 255

  predicate IsAsciiLetter(c: char) {
    ('a' <= c <= 'z') || ('A' <= c <= 'Z')
  }

  predicate IsAsciiAlnum(c: char) {
    IsAsciiLetter(c) || ('0' <= c <= '9')
  }

  /** A character the local part may hold. */
  predicate LocalChar(c: char) {
    IsAsciiAlnum(c) || c == '_' || c == '\'' || c == '+' || c == '-' || c == '.'
  }

  /** A character the local part may end with. */
  predicate LocalLast(c: char) {
    IsAsciiAlnum(c) || c == '_' || c == '+' || c == '-'
  }

  predicate IsLocalPart(s: string) {
    && |s| >= 1
    && s[0] != '.'
    && (forall i :: 0 <= i < |s| ==> LocalChar(s[i]))
    && LocalLast(s[|s| - 1])
  }

  /** A domain label: a letter or digit, then letters, digits and hyphens. */
  predicate IsLabel(s: string) {
    |s| >= 1 && IsAsciiAlnum(s[0]) && forall i :: 0 <= i < |s| ==> IsAsciiAlnum(s[i]) || s[i] == '-'
  }

  /** A top-level domain: two or more letters. */
  predicate IsTld(s: string) {
    |s| >= 2 && forall i :: 0 <= i < |s| ==> IsAsciiLetter(s[i])
  }

  /** One or more labels, each followed by a dot, then a top-level domain. */
  predicate IsDomain(s: string) {
    var parts := Split(s, ".");
    && |parts| >= 2
    && (forall k :: 0 <= k < |parts| - 1 ==> IsLabel(parts[k]))
    && IsTld(parts[|parts| - 1])
  }

  /**
   * The email check of the schema library: a local part that does not start
   * with a dot and ends with a letter, digit, `_`, `+` or `-`; one `@`; a
   * dotted domain ending in a top-level domain; no two dots in a row; ASCII
   * letters in either case.
   */
  predicate IsEmail(s: string) {
    && !Contains(s, "..")
    && match IndexOf(s, "@")
       case None => false
       case Some(i) => IsLocalPart(s[..i]) && IsDomain(s[i + 1..])
  }

  /**
   * `submitServerSchema`: name and server name of 1 to 255 characters, an
   * email of at most 255, a repository URL (one `isUrl` accepts) of at most
   * 255, description optional.
   */
  predicate Accepts(input: SubmitInput, isUrl: string -> bool) {
    && 1 <= |input.name| <= MAX_FIELD
    && IsEmail(input.email) && |input.email| <= MAX_FIELD
    && 1 <= |input.serverName| <= MAX_FIELD
    && isUrl(input.repoUrl) && |input.repoUrl| <= MAX_FIELD
  }

  /** An accepted email holds exactly one `@`, with text on both sides. */
  lemma EmailHasOneAt(s: string)
    requires IsEmail(s)
    ensures var i := IndexOf(s, "@").value;
      0 < i < |s| - 1 && s[i] == '@' && forall j :: 0 <= j < |s| && j != i ==> s[j] != '@'
  {
    var i := IndexOf(s, "@").value;
    assert s[i..i + 1] == "@";
    var local, domain := s[..i], s[i + 1..];
    forall j | 0 <= j < |s| && j != i
      ensures s[j] != '@'
    {
      if j < i {
        assert s[j] == local[j] && LocalChar(local[j]);
      } else {
        DomainHasNoAt(domain, j - i - 1);
        assert s[j] == domain[j - i - 1];
      }
    }
  }

  lemma DomainHasNoAt(d: string, j: int)
    requires IsDomain(d) && 0 <= j < |d|
    ensures d[j] != '@'
  {
    var parts := Split(d, ".");
    SplitJoin(d, ".");
    JoinedCharFrom(parts, ".", j);
  }

  /** Every character of a joined list comes from a piece or from the separator. */
  lemma {:induction false} JoinedCharFrom(parts: seq<string>, sep: string, j: int)
    requires |parts| >= 1 && 0 <= j < |Join(parts, sep)|
    requires forall k :: 0 <= k < |parts| ==> forall i :: 0 <= i < |parts[k]| ==> parts[k][i] != '@'
    requires forall i :: 0 <= i < |sep| ==> sep[i] != '@'
    ensures Join(parts, sep)[j] != '@'
    decreases |parts|
  {
    if |parts| > 1 {
      var head := parts[0] + sep;
      assert Join(parts, sep) == head + Join(parts[1..], sep);
      if j >= |head| {
        JoinedCharFrom(parts[1..], sep, j - |head|);
      } else if j >= |parts[0]| {
        assert Join(parts, sep)[j] == sep[j - |parts[0]|];
      } else {
        assert Join(parts, sep)[j] == parts[0][j];
      }
    }
  }
}
