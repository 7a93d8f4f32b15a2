/**
 * Client identification and the fail-open rate-limit check in front of the
 * submission form. The limiter itself (sliding windows kept in Redis) is an
 * oracle: its reply is a parameter.
 */
module RateLimit {
  import opened Wrappers
  import opened Text

  /** Request headers by lower-case name; a header that is not sent is not in the map. */
  type Headers = map<string, string>

  /** The three limiters, with their sliding-window budgets. */
  datatype LimiterKind = Api | Submissions | Search
  datatype Window = Window(tokens: nat, seconds: nat)

  function WindowOf(k: LimiterKind): Window {
    match k
    case Api => Window(10, 10)
    case Submissions => Window(10, 3600)
    case Search => Window(30, 60)
  }

  const UNKNOWN_IP: string := "unknown"

  /** A header's value as JavaScript tests it: absent and "" are both falsy. */
  function Header(h: Headers, name: string): Option<string> {
    if name in h && h[name] != "" then Some(h[name]) else None
  }

  /**
   * The client's address: `cf-connecting-ip`, else `x-real-ip`, else the
   * first comma-separated entry of `x-forwarded-for` with surrounding
   * whitespace removed, else "unknown".
   */
  function GetClientIp(h: Headers): (ip: string)
    ensures Header(h, "cf-connecting-ip").Some? ==> ip == h["cf-connecting-ip"]
    ensures Header(h, "cf-connecting-ip").None? && Header(h, "x-real-ip").Some? ==> ip == h["x-real-ip"]
    ensures Header(h, "cf-connecting-ip").None? && Header(h, "x-real-ip").None? && Header(h, "x-forwarded-for").Some? ==>
      ip == Trim(Split(h["x-forwarded-for"], ",")[0])
    ensures Header(h, "cf-connecting-ip").None? && Header(h, "x-real-ip").None? && Header(h, "x-forwarded-for").None? ==>
      ip == UNKNOWN_IP
  {
    FirstTruthy(Header(h, "cf-connecting-ip"), Header(h, "x-real-ip"), Header(h, "x-forwarded-for"))
  }

  function FirstTruthy(cloudflare: Option<string>, realIp: Option<string>, forwarded: Option<string>): string {
    match cloudflare
    case Some(v) => v
    case None =>
      match realIp
      case Some(v) => v
      case None =>
        match forwarded
        case Some(v) => Trim(Split(v, ",")[0])
        case None => UNKNOWN_IP
  }

  /** A forwarded-for address is its list's first entry: it holds no comma and no outer whitespace. */
  lemma ForwardedEntryShape(h: Headers)
    requires Header(h, "cf-connecting-ip").None? && Header(h, "x-real-ip").None? && Header(h, "x-forwarded-for").Some?
    ensures var ip := GetClientIp(h);
      && !Contains(ip, ",")
      && (ip == [] || (!IsJsWhitespace(ip[0]) && !IsJsWhitespace(ip[|ip| - 1])))
      && Visible(ip) == Visible(Split(h["x-forwarded-for"], ",")[0])
  {
    var v := h["x-forwarded-for"];
    var first := Split(v, ",")[0];
    SplitPiecesFree(v, ",");
    TrimNoNewText(first, ",");
  }

  /** Trimming cannot create an occurrence of a pattern. */
  lemma TrimNoNewText(s: string, p: string)
    requires !Contains(s, p)
    ensures !Contains(Trim(s), p)
  {
    var t := TrimStart(s);
    var r := TrimEnd(t);
    assert t == s[|s| - |t|..|s|];
    SliceNoNewText(s, p, |s| - |t|, |s|);
    assert r == t[0..|r|];
    SliceNoNewText(t, p, 0, |r|);
  }

  /** A slice of a text holds no pattern the text does not hold. */
  lemma SliceNoNewText(s: string, p: string, a: nat, b: nat)
    requires a <= b <= |s| && !Contains(s, p)
    ensures !Contains(s[a..b], p)
  {
    var r := s[a..b];
    if Contains(r, p) {
      var j := IndexOf(r, p).value;
      assert OccursAt(r, p, j);
      forall k | 0 <= k < |p|
        ensures s[a + j + k] == p[k]
      {
        assert r[j..j + |p|][k] == p[k];
        assert r[j + k] == s[a + j + k];
      }
      assert s[a + j..a + j + |p|] == p;
      ContainsAt(s, p, a + j);
    }
  }

  /** An empty header counts as absent: setting one of the three to "" is the same as not sending it. */
  lemma EmptyHeaderIsAbsent(h: Headers, name: string)
    requires name in {"cf-connecting-ip", "x-real-ip", "x-forwarded-for"}
    ensures GetClientIp(h[name := ""]) == GetClientIp(h - {name})
  {
    var h1, h2 := h[name := ""], h - {name};
    assert Header(h1, "cf-connecting-ip") == Header(h2, "cf-connecting-ip");
    assert Header(h1, "x-real-ip") == Header(h2, "x-real-ip");
    assert Header(h1, "x-forwarded-for") == Header(h2, "x-forwarded-for");
  }

  /** The limiter's answer, or its failure. */
  datatype LimiterReply = LimiterThrows | LimiterAnswer(success: bool, limit: int, reset: int, remaining: int)

  /** What `checkRateLimit` returns; `resetTime` is the `Date` built from `reset`. */
  datatype RateLimitResult = RateLimitResult(success: bool, limit: int, reset: int, remaining: int, resetTime: int)

  /**
   * `checkRateLimit`: the limiter's answer passed through, or, when the
   * limiter fails, an allowing result with zero counts (fail open) stamped
   * with the current time.
   */
  function CheckRateLimit(reply: LimiterReply, now: int): (r: RateLimitResult)
    ensures reply.LimiterThrows? ==> r == RateLimitResult(true, 0, 0, 0, now)
    ensures reply.LimiterAnswer? ==>
      && r.success == reply.success && r.limit == reply.limit && r.reset == reply.reset
      && r.remaining == reply.remaining && r.resetTime == reply.reset
  {
    match reply
    case LimiterThrows => RateLimitResult(true, 0, 0, 0, now)
    case LimiterAnswer(success, limit, reset, remaining) => RateLimitResult(success, limit, reset, remaining, reset)
  }

  /** A failing limiter never blocks. */
  lemma FailOpen(now: int)
    ensures CheckRateLimit(LimiterThrows, now).success
  {
  }

  /**
   * `getRateLimitHeaders`: the limit and the remaining count in decimal and
   * the reset time as an ISO string (`isoString` stands for `toISOString`).
   */
  function GetRateLimitHeaders(r: RateLimitResult, isoString: int -> string): (h: map<string, string>)
    ensures h.Keys == {"X-RateLimit-Limit", "X-RateLimit-Remaining", "X-RateLimit-Reset"}
    ensures h["X-RateLimit-Limit"] == IntToString(r.limit)
    ensures h["X-RateLimit-Remaining"] == IntToString(r.remaining)
    ensures h["X-RateLimit-Reset"] == isoString(r.resetTime)
  {
    map["X-RateLimit-Limit" := IntToString(r.limit),
        "X-RateLimit-Remaining" := IntToString(r.remaining),
        "X-RateLimit-Reset" := isoString(r.resetTime)]
  }

  /** The numeric headers read back as the counts they carry. */
  lemma RateLimitHeadersRoundTrip(r: RateLimitResult, isoString: int -> string)
    requires r.limit >= 0 && r.remaining >= 0
    ensures var h := GetRateLimitHeaders(r, isoString);
      DigitsValue(h["X-RateLimit-Limit"]) == r.limit && DigitsValue(h["X-RateLimit-Remaining"]) == r.remaining
  {
    NatToStringRoundTrip(r.limit);
    NatToStringRoundTrip(r.remaining);
  }
}
