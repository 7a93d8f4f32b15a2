/**
 * Favicons: the Google favicon service URL for a homepage's host name, and
 * the inline SVG placeholder used when a homepage is not a URL.
 * `new URL(...)` is the `hostnameOf` parameter: `None` where it throws.
 */
module Favicon {
  import opened Wrappers

  /** The host name of a URL, or `None` where the URL parser throws. */
  type HostnameOf = string -> Option<string>

  const FAVICON_PREFIX: string := "https://www.google.com/s2/favicons?domain="
  const FAVICON_SUFFIX: string := "&sz=128"

  /** The favicon service URL for a host name, at 128 pixels. */
  function GoogleFavicon(domain: string): (r: string)
    ensures |r| == |FAVICON_PREFIX| + |domain| + |FAVICON_SUFFIX|
  {
    FAVICON_PREFIX + domain + FAVICON_SUFFIX
  }

  /** The host name back from a favicon service URL. */
  function DomainOfFavicon(url: string): Option<string> {
    if |url| >= |FAVICON_PREFIX| + |FAVICON_SUFFIX|
       && url[..|FAVICON_PREFIX|] == FAVICON_PREFIX
       && url[|url| - |FAVICON_SUFFIX|..] == FAVICON_SUFFIX
    then Some(url[|FAVICON_PREFIX|..|url| - |FAVICON_SUFFIX|])
    else None
  }

  /** The host name is recovered from its favicon URL. */
  lemma DomainOfGoogleFavicon(domain: string)
    ensures DomainOfFavicon(GoogleFavicon(domain)) == Some(domain)
  {
    var u := GoogleFavicon(domain);
    assert u[..|FAVICON_PREFIX|] == FAVICON_PREFIX;
    assert u[|u| - |FAVICON_SUFFIX|..] == FAVICON_SUFFIX;
    assert u[|FAVICON_PREFIX|..|u| - |FAVICON_SUFFIX|] == domain;
  }

  /** Distinct hosts have distinct favicon URLs. */
  lemma GoogleFaviconInjective(a: string, b: string)
    requires GoogleFavicon(a) == GoogleFavicon(b)
    ensures a == b
  {
    DomainOfGoogleFavicon(a);
    DomainOfGoogleFavicon(b);
  }

  // ---------------------------------------------------------------------
  // Base64 (section 4 of RFC 4648), for the placeholder's data URL

  type Byte = b: int | 0 <= b < 256

  /** The 64 characters of the base64 alphabet. */
  predicate IsBase64Char(c: char) {
    ('A' <= c <= 'Z') || ('a' <= c <= 'z') || ('0' <= c <= '9') || c == '+' || c == '/'
  }

  /** The alphabet's character for a six-bit value: A-Z, a-z, 0-9, then + and /. */
  function Sextet(n: int): (c: char)
    requires 0 <= n < 64
    ensures IsBase64Char(c)
  {
    if n < 26 then ('A' as int + n) as char
    else if n < 52 then ('a' as int + (n - 26)) as char
    else if n < 62 then ('0' as int + (n - 52)) as char
    else if n == 62 then '+'
    else '/'
  }

  /** The four six-bit values of a three-byte group, read from the high bits down. */
  function FirstSextet(x: Byte): (n: int)
    ensures 0 <= n < 64
  {
    x / 4
  }

  function SecondSextet(x: Byte, y: Byte): (n: int)
    ensures 0 <= n < 64
  {
    (x % 4) * 16 + y / 16
  }

  function ThirdSextet(y: Byte, z: Byte): (n: int)
    ensures 0 <= n < 64
  {
    (y % 16) * 4 + z / 64
  }

  function FourthSextet(z: Byte): (n: int)
    ensures 0 <= n < 64
  {
    z % 64
  }

  /** The four characters of a full three-byte group. */
  function EncodeGroup(x: Byte, y: Byte, z: Byte): (g: string)
    ensures |g| == 4 && forall i :: 0 <= i < 4 ==> IsBase64Char(g[i])
  {
    [Sextet(FirstSextet(x)), Sextet(SecondSextet(x, y)), Sextet(ThirdSextet(y, z)), Sextet(FourthSextet(z))]
  }

  /** Three bytes become four characters; a final one or two bytes are padded with "=". */
  function Base64Encode(b: seq<Byte>): (r: string)
    ensures |r| == 4 * ((|b| + 2) / 3)
    ensures forall i :: 0 <= i < |r| ==> IsBase64Char(r[i]) || r[i] == '='
    decreases |b|
  {
    if |b| == 0 then ""
    else if |b| == 1 then
      [Sextet(FirstSextet(b[0])), Sextet(SecondSextet(b[0], 0)), '=', '=']
    else if |b| == 2 then
      [Sextet(FirstSextet(b[0])), Sextet(SecondSextet(b[0], b[1])), Sextet(ThirdSextet(b[1], 0)), '=']
    else
      var group := EncodeGroup(b[0], b[1], b[2]);
      var rest := Base64Encode(b[3..]);
      assert (|b| + 2) / 3 == (|b| - 3 + 2) / 3 + 1;
      Base64Join(group, rest);
      group + rest
  }

  lemma Base64Join(group: string, rest: string)
    requires forall i :: 0 <= i < |group| ==> IsBase64Char(group[i]) || group[i] == '='
    requires forall i :: 0 <= i < |rest| ==> IsBase64Char(rest[i]) || rest[i] == '='
    ensures forall i :: 0 <= i < |group + rest| ==> IsBase64Char((group + rest)[i]) || (group + rest)[i] == '='
  {
    forall i | 0 <= i < |group + rest|
      ensures IsBase64Char((group + rest)[i]) || (group + rest)[i] == '='
    {
      if i >= |group| {
        assert (group + rest)[i] == rest[i - |group|];
      }
    }
  }

  // The decoder of section 4 of RFC 4648, as a reference for the encoder

  /** The six-bit value of an alphabet character. */
  function SextetValue(c: char): (n: int)
    requires IsBase64Char(c)
    ensures 0 <= n < 64
  {
    if 'A' <= c <= 'Z' then c as int - 'A' as int
    else if 'a' <= c <= 'z' then c as int - 'a' as int + 26
    else if '0' <= c <= '9' then c as int - '0' as int + 52
    else if c == '+' then 62
    else 63
  }

  /** Each six-bit value reads back from its character. */
  lemma SextetRoundTrip(n: int)
    requires 0 <= n < 64
    ensures SextetValue(Sextet(n)) == n
  {
  }

  /** The bytes of one four-character group; "=" may pad its last one or two places. */
  function DecodeGroup(g: string): (r: Option<seq<Byte>>)
    requires |g| == 4
    ensures r.Some? ==> 1 <= |r.value| <= 3
  {
    if !IsBase64Char(g[0]) || !IsBase64Char(g[1]) then None
    else
      var a, b := SextetValue(g[0]), SextetValue(g[1]);
      var x: Byte := a * 4 + b / 16;
      if g[2] == '=' && g[3] == '=' then Some([x])
      else if !IsBase64Char(g[2]) then None
      else
        var c := SextetValue(g[2]);
        var y: Byte := (b % 16) * 16 + c / 4;
        if g[3] == '=' then Some([x, y])
        else if !IsBase64Char(g[3]) then None
        else Some([x, y, (c % 4) * 64 + SextetValue(g[3])])
  }

  /** Base64 text back to bytes; `None` for text that is not base64, or that is padded before its end. */
  function Base64Decode(s: string): (r: Option<seq<Byte>>)
    decreases |s|
  {
    if s == [] then Some([])
    else if |s| < 4 then None
    else
      match DecodeGroup(s[..4])
      case None => None
      case Some(bytes) =>
        if |bytes| < 3 && |s| > 4 then None
        else
          match Base64Decode(s[4..])
          case None => None
          case Some(rest) => Some(bytes + rest)
  }

  lemma FirstByteBack(x: Byte, y: Byte)
    ensures FirstSextet(x) * 4 + SecondSextet(x, y) / 16 == x
  {
    assert SecondSextet(x, y) / 16 == x % 4;
  }

  lemma SecondByteBack(x: Byte, y: Byte, z: Byte)
    ensures (SecondSextet(x, y) % 16) * 16 + ThirdSextet(y, z) / 4 == y
  {
    assert SecondSextet(x, y) % 16 == y / 16;
    assert ThirdSextet(y, z) / 4 == y % 16;
  }

  lemma ThirdByteBack(y: Byte, z: Byte)
    ensures (ThirdSextet(y, z) % 4) * 64 + FourthSextet(z) == z
  {
    assert ThirdSextet(y, z) % 4 == z / 64;
  }

  /** Decoding the encoder's text gives the bytes back. */
  lemma {:induction false} Base64RoundTrip(b: seq<Byte>)
    ensures Base64Decode(Base64Encode(b)) == Some(b)
    decreases |b|
  {
    if |b| == 1 {
      SingleRoundTrip(b);
    } else if |b| == 2 {
      PairRoundTrip(b);
    } else if |b| >= 3 {
      Base64RoundTrip(b[3..]);
      GroupThenRestDecodes(b[..3], b[3..]);
      assert b[..3] + b[3..] == b;
    }
  }

  lemma GroupThenRestDecodes(t: seq<Byte>, tail: seq<Byte>)
    requires |t| == 3 && Base64Decode(Base64Encode(tail)) == Some(tail)
    ensures Base64Decode(Base64Encode(t + tail)) == Some(t + tail)
  {
    var b := t + tail;
    assert b[..3] == t && b[3..] == tail;
    assert Base64Encode(b) == EncodeGroup(t[0], t[1], t[2]) + Base64Encode(tail);
    GroupRoundTrip(t);
    DecodeCons(EncodeGroup(t[0], t[1], t[2]), Base64Encode(tail), t, tail);
  }

  lemma DecodeCons(g: string, rest: string, bytes: seq<Byte>, tail: seq<Byte>)
    requires |g| == 4 && DecodeGroup(g) == Some(bytes) && |bytes| == 3
    requires Base64Decode(rest) == Some(tail)
    ensures Base64Decode(g + rest) == Some(bytes + tail)
  {
    assert (g + rest)[..4] == g && (g + rest)[4..] == rest;
  }

  lemma LastGroupDecodes(g: string, bytes: seq<Byte>)
    requires |g| == 4 && DecodeGroup(g) == Some(bytes)
    ensures Base64Decode(g) == Some(bytes)
  {
    assert g[..4] == g && g[4..] == [];
    assert bytes + [] == bytes;
  }

  lemma SingleRoundTrip(b: seq<Byte>)
    requires |b| == 1
    ensures Base64Decode(Base64Encode(b)) == Some(b)
  {
    SingleGroupDecodes(b[0]);
    LastGroupDecodes(Base64Encode(b), [b[0]]);
    assert b == [b[0]];
  }

  lemma SingleGroupDecodes(x: Byte)
    ensures DecodeGroup([Sextet(FirstSextet(x)), Sextet(SecondSextet(x, 0)), '=', '=']) == Some([x])
  {
    SextetRoundTrip(FirstSextet(x));
    SextetRoundTrip(SecondSextet(x, 0));
    FirstByteBack(x, 0);
  }

  lemma PairRoundTrip(b: seq<Byte>)
    requires |b| == 2
    ensures Base64Decode(Base64Encode(b)) == Some(b)
  {
    var x, y := b[0], b[1];
    SextetRoundTrip(FirstSextet(x));
    SextetRoundTrip(SecondSextet(x, y));
    SextetRoundTrip(ThirdSextet(y, 0));
    FirstByteBack(x, y);
    SecondByteBack(x, y, 0);
    LastGroupDecodes(Base64Encode(b), [x, y]);
    assert b == [x, y];
  }

  lemma GroupRoundTrip(t: seq<Byte>)
    requires |t| == 3
    ensures DecodeGroup(EncodeGroup(t[0], t[1], t[2])) == Some(t)
  {
    var x, y, z := t[0], t[1], t[2];
    SextetRoundTrip(FirstSextet(x));
    SextetRoundTrip(SecondSextet(x, y));
    SextetRoundTrip(ThirdSextet(y, z));
    SextetRoundTrip(FourthSextet(z));
    FirstByteBack(x, y);
    SecondByteBack(x, y, z);
    ThirdByteBack(y, z);
    assert t == [x, y, z];
  }

  /** So the encoding is injective: different bytes never share a text. */
  lemma Base64EncodeInjective(a: seq<Byte>, b: seq<Byte>)
    requires Base64Encode(a) == Base64Encode(b)
    ensures a == b
  {
    Base64RoundTrip(a);
    Base64RoundTrip(b);
  }

  /**
   * The bytes `Buffer.from` writes for a string: each character's code.
   * This is its UTF-8 encoding for the ASCII text it is applied to here.
   */
  function AsciiBytes(s: string): (b: seq<Byte>)
    ensures |b| == |s|
  {
    seq(|s|, i requires 0 <= i < |s| => (s[i] as int) % 256)
  }

  const SVG_DATA_PREFIX: string := "data:image/svg+xml;base64,"

  /** The placeholder image: a grey rounded square with two white strokes. */
  const SVG_MARKUP: string :=
    "\n<svg width=\"24\" height=\"24\" viewBox=\"0 0 24 24\" fill=\"none\" xmlns=\"http://www.w3.org/2000/svg\">\n"
    + "  <rect width=\"24\" height=\"24\" rx=\"4\" fill=\"#64748B\"/>\n"
    + "  <path d=\"M8 10h8M8 14h6\" stroke=\"white\" stroke-width=\"2\" stroke-linecap=\"round\"/>\n"
    + "</svg>\n"

  const SVG_PLACEHOLDER: string := SVG_DATA_PREFIX + Base64Encode(AsciiBytes(SVG_MARKUP))

  /** The placeholder is a base64 SVG data URL. */
  lemma PlaceholderIsSvgDataUrl()
    ensures |SVG_PLACEHOLDER| > |SVG_DATA_PREFIX|
    ensures SVG_PLACEHOLDER[..|SVG_DATA_PREFIX|] == SVG_DATA_PREFIX
    ensures (|SVG_PLACEHOLDER| - |SVG_DATA_PREFIX|) % 4 == 0
  {
    assert |SVG_MARKUP| > 0 by { assert |"</svg>\n"| == 7; }
    DataUrlShape(AsciiBytes(SVG_MARKUP));
  }

  lemma DataUrlShape(b: seq<Byte>)
    requires |b| > 0
    ensures var u := SVG_DATA_PREFIX + Base64Encode(b);
      |u| > |SVG_DATA_PREFIX| && u[..|SVG_DATA_PREFIX|] == SVG_DATA_PREFIX && (|u| - |SVG_DATA_PREFIX|) % 4 == 0
  {
    var payload := Base64Encode(b);
    assert (SVG_DATA_PREFIX + payload)[..|SVG_DATA_PREFIX|] == SVG_DATA_PREFIX;
  }

  /** `getFaviconUrl`: the favicon of the homepage's host, else the placeholder. */
  function GetFaviconUrl(homepageUrl: string, hostnameOf: HostnameOf): (r: string)
    ensures hostnameOf(homepageUrl).Some? ==> r == GoogleFavicon(hostnameOf(homepageUrl).value)
    ensures hostnameOf(homepageUrl).None? ==> r == SVG_PLACEHOLDER
  {
    match hostnameOf(homepageUrl)
    case Some(domain) => GoogleFavicon(domain)
    case None => SVG_PLACEHOLDER
  }

  /** The result is never empty, whatever the homepage. */
  lemma FaviconNeverEmpty(homepageUrl: string, hostnameOf: HostnameOf)
    ensures GetFaviconUrl(homepageUrl, hostnameOf) != ""
    ensures hostnameOf(homepageUrl).None? ==> GetFaviconUrl(homepageUrl, hostnameOf)[..|SVG_DATA_PREFIX|] == SVG_DATA_PREFIX
  {
    PlaceholderIsSvgDataUrl();
  }
}
