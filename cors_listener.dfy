/** Cross-origin headers (src/EventListener/CorsListener.php). The allow-list
    is parsed once, when the listener is built, from the configured string;
    afterwards every main-request response gets the CORS headers, and a
    main-request preflight (`OPTIONS`) is answered at once with an empty
    response carrying them. Sub-requests are never touched. */
module CorsListener {
  import opened Common

  // ---------------------------------------------------------------------
  // Parsing the allow-list

  /** The origins used when nothing (or a falsy string) is configured. */
  const DefaultOrigins: seq<string> := [
    "http://localhost:5173",
    "http://localhost:3000",
    "http://127.0.0.1:5173",
    "http://127.0.0.1:3000"
  ]

  /** The characters PHP's `trim` strips by default: space, tab, line feed,
      carriage return, NUL and vertical tab. */
  predicate IsWhitespace(c: char) {
    c == ' ' || c == '\t' || c == '\n' || c == '\r' || c == '\0' || c == '\U{000B}'
  }

  /** `explode($sep, $s)`: the pieces between separators, in order; there is
      always at least one, and none contains the separator. */
  function Split(s: string, sep: char): (parts: seq<string>)
    ensures |parts| >= 1
    ensures forall i | 0 <= i < |parts| :: !Contains(parts[i], sep)
    ensures forall i, c | 0 <= i < |parts| && c in parts[i] :: c in s
    decreases |s|
  {
    if !Contains(s, sep) then [s]
    else
      var i := IndexOf(s, sep);
      var rest := Split(s[i + 1..], sep);
      assert forall j, c | 0 <= j < |rest| && c in rest[j] :: c in s by {
        forall j, c | 0 <= j < |rest| && c in rest[j] ensures c in s {
          assert c in s[i + 1..];
          var k :| 0 <= k < |s[i + 1..]| && s[i + 1..][k] == c;
          assert s[i + 1 + k] == c;
        }
      }
      assert forall c | c in s[..i] :: c in s by {
        forall c | c in s[..i] ensures c in s {
          var k :| 0 <= k < i && s[..i][k] == c;
          assert s[k] == c;
        }
      }
      [s[..i]] + rest
  }

  /** `implode($sep, $parts)`, the inverse of `Split`. */
  function Join(parts: seq<string>, sep: char): string {
    if |parts| == 0 then ""
    else if |parts| == 1 then parts[0]
    else parts[0] + [sep] + Join(parts[1..], sep)
  }

  /** Splitting and joining again gives the string back. */
  lemma {:induction false} JoinSplit(s: string, sep: char)
    ensures Join(Split(s, sep), sep) == s
    decreases |s|
  {
    if Contains(s, sep) {
      var i := IndexOf(s, sep);
      JoinSplit(s[i + 1..], sep);
      assert s == s[..i] + [sep] + s[i + 1..];
    }
  }

  /** Joining pieces that hold no separator and splitting again gives the
      pieces back. */
  lemma {:induction false} SplitJoin(parts: seq<string>, sep: char)
    requires |parts| >= 1
    requires forall i | 0 <= i < |parts| :: !Contains(parts[i], sep)
    ensures Split(Join(parts, sep), sep) == parts
  {
    if |parts| > 1 {
      var p := parts[0];
      var rest := Join(parts[1..], sep);
      var s := Join(parts, sep);
      assert s == p + [sep] + rest;
      assert s[|p|] == sep;
      assert Contains(s, sep);
      var i := IndexOf(s, sep);
      assert i == |p|;
      assert s[..i] == p;
      assert s[i + 1..] == rest;
      SplitJoin(parts[1..], sep);
    }
  }

  /** The length of the whitespace run at the front. */
  function LeadingWhitespace(s: string): (n: nat)
    ensures n <= |s|
    ensures forall i | 0 <= i < n :: IsWhitespace(s[i])
    ensures n < |s| ==> !IsWhitespace(s[n])
  {
    if s != [] && IsWhitespace(s[0]) then 1 + LeadingWhitespace(s[1..]) else 0
  }

  /** The length of the whitespace run at the back. */
  function TrailingWhitespace(s: string): (n: nat)
    ensures n <= |s|
    ensures forall i | |s| - n <= i < |s| :: IsWhitespace(s[i])
    ensures n < |s| ==> !IsWhitespace(s[|s| - n - 1])
  {
    if s != [] && IsWhitespace(s[|s| - 1]) then 1 + TrailingWhitespace(s[..|s| - 1]) else 0
  }

  /** `trim`: the front run goes, then the back run of what is left. Neither
      end of the result is whitespace, every character of the result comes
      from the input, and the result is empty exactly when the input is all
      whitespace. */
  function Trim(s: string): (r: string)
    ensures r != [] ==> !IsWhitespace(r[0]) && !IsWhitespace(r[|r| - 1])
    ensures forall c | c in r :: c in s
    ensures r == [] <==> forall i | 0 <= i < |s| :: IsWhitespace(s[i])
  {
    var a := LeadingWhitespace(s);
    var b := |s| - TrailingWhitespace(s[a..]);
    TrimBounds(s, a, b);
    s[a..b]
  }

  /** The facts behind `Trim`, for the bounds it computes. */
  lemma TrimBounds(s: string, a: nat, b: nat)
    requires a == LeadingWhitespace(s) && b == |s| - TrailingWhitespace(s[a..])
    ensures a <= b <= |s|
    ensures var r := s[a..b];
            && (r != [] ==> !IsWhitespace(r[0]) && !IsWhitespace(r[|r| - 1]))
            && (forall c | c in r :: c in s)
            && (r == [] <==> forall i | 0 <= i < |s| :: IsWhitespace(s[i]))
  {
    SliceChars(s, a, b);
    if a < b {
      var t := s[a..];
      assert s[b - 1] == t[|t| - TrailingWhitespace(t) - 1];
    } else {
      AllWhitespaceWhenEmpty(s, a);
    }
  }

  /** Every character of a slice is a character of the string. */
  lemma SliceChars(s: string, a: nat, b: nat)
    requires a <= b <= |s|
    ensures forall c | c in s[a..b] :: c in s
  {
    forall c | c in s[a..b] ensures c in s {
      var k :| 0 <= k < b - a && s[a..b][k] == c;
      assert s[a + k] == c;
    }
  }

  /** When the back run of what follows the front run is all of it, the
      front run is the whole string. */
  lemma AllWhitespaceWhenEmpty(s: string, a: nat)
    requires a == LeadingWhitespace(s) && TrailingWhitespace(s[a..]) == |s| - a
    ensures a == |s|
  {
  }

  /** A string with no whitespace at either end is left alone. */
  lemma TrimOfTrimmed(s: string)
    requires s != [] ==> !IsWhitespace(s[0]) && !IsWhitespace(s[|s| - 1])
    ensures Trim(s) == s
  {
    assert LeadingWhitespace(s) == 0;
  }

  /** Trimming twice is trimming once. */
  lemma TrimIdempotent(s: string)
    ensures Trim(Trim(s)) == Trim(s)
  {
    TrimOfTrimmed(Trim(s));
  }

  /** `array_map('trim', …)`. */
  function TrimEach(parts: seq<string>): (r: seq<string>)
    ensures |r| == |parts| && forall i | 0 <= i < |parts| :: r[i] == Trim(parts[i])
  {
    seq(|parts|, i requires 0 <= i < |parts| => Trim(parts[i]))
  }

  /** The trimmed pieces are exactly the trims of the pieces. */
  lemma TrimEachMembers(parts: seq<string>)
    ensures forall o :: o in TrimEach(parts) <==> exists p | p in parts :: Trim(p) == o
  {
    var trimmed := TrimEach(parts);
    forall o ensures o in trimmed <==> exists p | p in parts :: Trim(p) == o {
      if o in trimmed {
        var i :| 0 <= i < |trimmed| && trimmed[i] == o;
        assert parts[i] in parts;
      }
      if exists p | p in parts :: Trim(p) == o {
        var p :| p in parts && Trim(p) == o;
        var i :| 0 <= i < |parts| && parts[i] == p;
        assert trimmed[i] == o;
      }
    }
  }

  /** `array_filter` without a callback on strings: `""` and `"0"` go, the
      rest keeps its order. */
  function DropFalsy(xs: seq<string>): (r: seq<string>)
    ensures forall o :: o in r <==> o in xs && !Falsy(Some(o))
    ensures (forall i | 0 <= i < |xs| :: !Falsy(Some(xs[i]))) ==> r == xs
  {
    if xs == [] then []
    else
      assert xs == [xs[0]] + xs[1..];
      (if Falsy(Some(xs[0])) then [] else [xs[0]]) + DropFalsy(xs[1..])
  }

  /** The constructor's allow-list: a truthy configuration is split on `,`,
      each piece trimmed and the falsy pieces dropped; a null or falsy one
      gives the four local development origins. Either way `""` and `"0"`
      are never allowed. */
  function ParseOrigins(config: Option<string>): (origins: seq<string>)
    ensures Falsy(config) ==> origins == DefaultOrigins
    ensures !Falsy(config) ==>
              forall o :: o in origins <==> !Falsy(Some(o)) && exists p | p in Split(config.value, ',') :: Trim(p) == o
    ensures "" !in origins && "0" !in origins
  {
    if Falsy(config) then DefaultOrigins
    else
      var parts := Split(config.value, ',');
      var trimmed := TrimEach(parts);
      TrimEachMembers(parts);
      DropFalsy(trimmed)
  }

  /** Writing origins as a comma-separated list (each one non-empty, not
      `"0"`, free of commas and of surrounding whitespace) configures exactly
      those origins, in that order. */
  lemma ListRoundTrip(origins: seq<string>)
    requires |origins| >= 1
    requires forall i | 0 <= i < |origins| ::
               && origins[i] != "" && origins[i] != "0" && !Contains(origins[i], ',')
               && !IsWhitespace(origins[i][0]) && !IsWhitespace(origins[i][|origins[i]| - 1])
    ensures ParseOrigins(Some(Join(origins, ','))) == origins
  {
    var s := Join(origins, ',');
    JoinOfTruthyIsTruthy(origins, ',');
    SplitJoin(origins, ',');
    forall i | 0 <= i < |origins| ensures Trim(origins[i]) == origins[i] {
      TrimOfTrimmed(origins[i]);
    }
    assert TrimEach(origins) == origins;
    assert ParseOrigins(Some(s)) == DropFalsy(TrimEach(Split(s, ',')));
  }

  /** Joining truthy pieces gives a truthy string. */
  lemma JoinOfTruthyIsTruthy(parts: seq<string>, sep: char)
    requires |parts| >= 1 && parts[0] != "" && parts[0] != "0"
    ensures Join(parts, sep) != "" && Join(parts, sep) != "0"
  {
    if |parts| > 1 {
      assert Join(parts, sep) == parts[0] + [sep] + Join(parts[1..], sep);
    }
  }

  /** A configuration that is truthy but holds only commas and whitespace
      allows no origin at all; it does not fall back to the defaults. */
  lemma BlankConfigAllowsNothing(s: string)
    requires !Falsy(Some(s))
    requires forall i | 0 <= i < |s| :: s[i] == ',' || IsWhitespace(s[i])
    ensures ParseOrigins(Some(s)) == []
  {
    var parts := Split(s, ',');
    forall i | 0 <= i < |parts| ensures Trim(parts[i]) == "" {
      BlankPiece(s, parts[i]);
    }
    var trimmed := TrimEach(parts);
    AllFalsyDropped(trimmed);
    assert ParseOrigins(Some(s)) == DropFalsy(trimmed);
  }

  /** Filtering a list of falsy strings leaves nothing. */
  lemma {:induction false} AllFalsyDropped(xs: seq<string>)
    requires forall i | 0 <= i < |xs| :: xs[i] == ""
    ensures DropFalsy(xs) == []
  {
    if xs != [] {
      AllFalsyDropped(xs[1..]);
    }
  }

  /** A comma-free piece of a string made of commas and whitespace trims to
      nothing. */
  lemma BlankPiece(s: string, p: string)
    requires forall i | 0 <= i < |s| :: s[i] == ',' || IsWhitespace(s[i])
    requires !Contains(p, ',') && forall c | c in p :: c in s
    ensures Trim(p) == ""
  {
    forall j | 0 <= j < |p| ensures IsWhitespace(p[j]) {
      assert p[j] in s;
    }
  }

  // ---------------------------------------------------------------------
  // The headers

  const AllowOrigin := "Access-Control-Allow-Origin"
  const AllowCredentials := "Access-Control-Allow-Credentials"
  const AllowMethods := "Access-Control-Allow-Methods"
  const AllowHeaders := "Access-Control-Allow-Headers"
  const MaxAge := "Access-Control-Max-Age"

  const MethodsValue := "GET, POST, PUT, DELETE, OPTIONS"
  const HeadersValue := "Content-Type, Authorization, X-Requested-With"

  /** The names `addCorsHeaders` may write. */
  predicate IsCorsHeader(name: string) {
    name == AllowOrigin || name == AllowCredentials || name == AllowMethods || name == AllowHeaders || name == MaxAge
  }

  /** The echo rule: the request's Origin is truthy and on the list. */
  predicate Allowed(origin: Option<string>, allowed: seq<string>) {
    !Falsy(origin) && origin.value in allowed
  }

  /** The headers after `addCorsHeaders`: the Origin is echoed only when
      allowed (otherwise Allow-Origin is left as it was), the four fixed
      headers are always set, and every other header is kept. */
  function WithCorsHeaders(h: map<string, string>, origin: Option<string>, allowed: seq<string>): (r: map<string, string>)
    ensures forall k | k in h && !IsCorsHeader(k) :: k in r && r[k] == h[k]
    ensures forall k | k in r && !IsCorsHeader(k) :: k in h
    ensures Allowed(origin, allowed) ==> AllowOrigin in r && r[AllowOrigin] == origin.value
    ensures !Allowed(origin, allowed) ==>
              && (AllowOrigin in r <==> AllowOrigin in h)
              && (AllowOrigin in h ==> r[AllowOrigin] == h[AllowOrigin])
    ensures AllowCredentials in r && r[AllowCredentials] == "true"
    ensures AllowMethods in r && r[AllowMethods] == MethodsValue
    ensures AllowHeaders in r && r[AllowHeaders] == HeadersValue
    ensures MaxAge in r && r[MaxAge] == "3600"
  {
    var echoed := if Allowed(origin, allowed) then h[AllowOrigin := origin.value] else h;
    echoed[AllowCredentials := "true"][AllowMethods := MethodsValue][AllowHeaders := HeadersValue][MaxAge := "3600"]
  }

  /** Adding the headers a second time changes nothing, so a preflight
      response that passes through the response event again ends up the same. */
  lemma CorsHeadersIdempotent(h: map<string, string>, origin: Option<string>, allowed: seq<string>)
    ensures WithCorsHeaders(WithCorsHeaders(h, origin, allowed), origin, allowed) == WithCorsHeaders(h, origin, allowed)
  {
    var once := WithCorsHeaders(h, origin, allowed);
    var twice := WithCorsHeaders(once, origin, allowed);
    assert twice.Keys == once.Keys;
    assert forall k | k in once :: twice[k] == once[k];
  }

  /** The preflight answer: the four fixed headers, plus Allow-Origin exactly
      when the Origin is allowed. */
  lemma PreflightHeaders(origin: Option<string>, allowed: seq<string>)
    ensures var r := WithCorsHeaders(map[], origin, allowed);
            r.Keys == (if Allowed(origin, allowed) then {AllowOrigin} else {}) + {AllowCredentials, AllowMethods, AllowHeaders, MaxAge}
  {
    var r := WithCorsHeaders(map[], origin, allowed);
    var expected := (if Allowed(origin, allowed) then {AllowOrigin} else {}) + {AllowCredentials, AllowMethods, AllowHeaders, MaxAge};
    assert forall k | k in r :: IsCorsHeader(k);
    assert forall k | k in expected :: k in r;
    assert forall k | k in r :: k in expected;
  }

  /** The truthiness test in the echo rule never decides anything on a parsed
      list: the Origin is echoed exactly when it is present and listed. */
  lemma FalsyOriginTestRedundant(config: Option<string>, origin: Option<string>)
    ensures Allowed(origin, ParseOrigins(config)) <==> origin.Some? && origin.value in ParseOrigins(config)
  {
  }

  // ---------------------------------------------------------------------
  // The listener

  /** A response: status, body and headers keyed by name. */
  class HttpResponse {
    var status: nat
    var content: string
    var headers: map<string, string>

    /** `new Response()`: 200, empty body, no headers. */
    constructor ()
      ensures status == 200 && content == "" && headers == map[]
    {
      status := 200;
      content := "";
      headers := map[];
    }
  }

  class Listener {
    /** Parsed once and never changed afterwards. */
    const allowedOrigins: seq<string>

    constructor (config: Option<string>)
      ensures allowedOrigins == ParseOrigins(config)
    {
      allowedOrigins := ParseOrigins(config);
    }

    /** `addCorsHeaders`: updates the response's headers in place. */
    method AddCorsHeaders(response: HttpResponse, origin: Option<string>)
      modifies response`headers
      ensures response.headers == WithCorsHeaders(old(response.headers), origin, allowedOrigins)
    {
      if !Falsy(origin) && origin.value in allowedOrigins {
        response.headers := response.headers[AllowOrigin := origin.value];
      }
      response.headers := response.headers[AllowCredentials := "true"];
      response.headers := response.headers[AllowMethods := MethodsValue];
      response.headers := response.headers[AllowHeaders := HeadersValue];
      response.headers := response.headers[MaxAge := "3600"];
    }

    /** `onKernelRequest`: only a main-request preflight is answered here,
        with a fresh empty 200 response carrying the CORS headers; any other
        request passes through (`null`). */
    method OnKernelRequest(isMainRequest: bool, httpMethod: string, origin: Option<string>)
      returns (response: HttpResponse?)
      ensures !isMainRequest || httpMethod != "OPTIONS" ==> response == null
      ensures isMainRequest && httpMethod == "OPTIONS" ==>
                && response != null && fresh(response)
                && response.status == 200 && response.content == ""
                && response.headers == WithCorsHeaders(map[], origin, allowedOrigins)
    {
      if !isMainRequest {
        return null;
      }
      if httpMethod == "OPTIONS" {
        var r := new HttpResponse();
        AddCorsHeaders(r, origin);
        return r;
      }
      return null;
    }

    /** `onKernelResponse`: a main request's response gets the CORS headers;
        a sub-request's is left alone. */
    method OnKernelResponse(isMainRequest: bool, response: HttpResponse, origin: Option<string>)
      modifies response`headers
      ensures response.headers == if isMainRequest then WithCorsHeaders(old(response.headers), origin, allowedOrigins)
                                  else old(response.headers)
    {
      if !isMainRequest {
        return;
      }
      AddCorsHeaders(response, origin);
    }
  }
}
