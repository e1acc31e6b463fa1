/**
 * The development-only API rate limiter of middleware.ts: a fixed window of
 * 60 000 ms per client-and-path key, at most 60 requests inside one window.
 * The store is a field of a RateLimiter object; the clock is a parameter.
 */
module RateLimit {
  import opened Common

  const RATE_LIMIT_WINDOW_MS: int := 60000
  const RATE_LIMIT_MAX_REQUESTS: int := 60

  datatype Entry = Entry(count: int, resetAt: int)

  // ---------------------------------------------------------------------
  // Key derivation
  // ---------------------------------------------------------------------

  /** The characters String.prototype.trim removes: white space and line terminators. */
  predicate IsJsWhitespace(c: char)
  {
    c == ' ' || c == '\t' || c == '\n' || c == '\U{000B}' || c == '\U{000C}' || c == '\r'
    || c == '\U{00A0}' || c == '\U{1680}' || ('\U{2000}' <= c <= '\U{200A}')
    || c == '\U{2028}' || c == '\U{2029}' || c == '\U{202F}' || c == '\U{205F}'
    || c == '\U{3000}' || c == '\U{FEFF}'
  }

  /** Number of leading white-space characters. */
  function LeadingSpace(s: string): (n: nat)
    ensures n <= |s|
    ensures forall i :: 0 <= i < n ==> IsJsWhitespace(s[i])
    ensures n == |s| || !IsJsWhitespace(s[n])
    decreases |s|
  {
    if |s| > 0 && IsJsWhitespace(s[0]) then 1 + LeadingSpace(s[1..]) else 0
  }

  /** Number of trailing white-space characters. */
  function TrailingSpace(s: string): (n: nat)
    ensures n <= |s|
    ensures forall i :: |s| - n <= i < |s| ==> IsJsWhitespace(s[i])
    ensures n == |s| || !IsJsWhitespace(s[|s| - 1 - n])
    decreases |s|
  {
    if |s| > 0 && IsJsWhitespace(s[|s| - 1]) then 1 + TrailingSpace(s[..|s| - 1]) else 0
  }

  /** String.prototype.trim: the longest infix that neither starts nor ends in white space. */
  function Trim(s: string): (r: string)
    ensures LeadingSpace(s) + |r| <= |s| && r == s[LeadingSpace(s)..LeadingSpace(s) + |r|]
    ensures forall k :: LeadingSpace(s) + |r| <= k < |s| ==> IsJsWhitespace(s[k])
    ensures r == [] || (!IsJsWhitespace(r[0]) && !IsJsWhitespace(r[|r| - 1]))
    ensures forall k :: 0 <= k < |r| ==> r[k] in s
  {
    var i := LeadingSpace(s);
    var n := TrailingSpace(s[i..]);
    s[i..|s| - n]
  }

  /** A string without white space is its own trim. */
  lemma TrimKeepsPlain(s: string)
    requires forall k :: 0 <= k < |s| ==> !IsJsWhitespace(s[k])
    ensures Trim(s) == s
  {
    assert LeadingSpace(s) == 0;
    assert TrailingSpace(s) == 0;
  }

  /** The position of the first comma, or the length when there is none. */
  function CommaIndex(s: string): (k: nat)
    ensures k <= |s| && ',' !in s[..k]
    ensures k < |s| ==> s[k] == ','
    decreases |s|
  {
    if |s| == 0 || s[0] == ',' then 0
    else
      var k := 1 + CommaIndex(s[1..]);
      assert s[..k] == [s[0]] + s[1..][..k - 1];
      k
  }

  /** Everything before the first comma: the first element of split(","). */
  function FirstField(s: string): (r: string)
    ensures ',' !in r
    ensures r == s[..CommaIndex(s)]
    ensures ',' !in s ==> r == s
  {
    s[..CommaIndex(s)]
  }

  /** The client part of the key: the first forwarded address, or "unknown". */
  function ClientIp(forwardedFor: Option<string>): (ip: string)
    ensures ip != [] && ',' !in ip
    ensures !IsJsWhitespace(ip[0]) && !IsJsWhitespace(ip[|ip| - 1])
    ensures forwardedFor.Some? && Trim(FirstField(forwardedFor.value)) != [] ==>
      ip == Trim(FirstField(forwardedFor.value))
    ensures forwardedFor.None? || Trim(FirstField(forwardedFor.value)) == [] ==> ip == "unknown"
  {
    UnknownIsPlain();
    var header := if forwardedFor.Some? then forwardedFor.value else "unknown";
    var field := FirstField(header);
    TrimHasNoComma(field);
    var trimmed := Trim(field);
    if trimmed == [] then "unknown" else trimmed
  }

  /** The default address has no comma and no white space at either end. */
  lemma UnknownIsPlain()
    ensures Trim(FirstField("unknown")) == "unknown"
    ensures ',' !in "unknown" && |"unknown"| == 7
    ensures !IsJsWhitespace("unknown"[0]) && !IsJsWhitespace("unknown"[6])
  {
    var u := "unknown";
    assert u[0] == 'u' && u[6] == 'n';
    assert ',' !in u;
    assert forall k :: 0 <= k < |u| ==> !IsJsWhitespace(u[k]);
    TrimKeepsPlain(u);
  }

  /** Trimming a string without a comma leaves none. */
  lemma TrimHasNoComma(s: string)
    requires ',' !in s
    ensures ',' !in Trim(s)
  {
    var r := Trim(s);
    forall k | 0 <= k < |r|
      ensures r[k] != ','
    {
      assert r[k] in s;
    }
  }

  /** The store key: client address, a colon, and the request's pathname. */
  function ClientKey(forwardedFor: Option<string>, pathname: string): (key: string)
    ensures key == ClientIp(forwardedFor) + ":" + pathname
  {
    ClientIp(forwardedFor) + ":" + pathname
  }

  /** Without the header the client part is "unknown". */
  lemma MissingHeaderIsUnknown()
    ensures ClientIp(None) == "unknown"
  {
  }

  lemma FirstAddressExample()
    ensures ClientIp(Some(" 10.0.0.1 , 10.0.0.2")) == "10.0.0.1"
  {
    FirstFieldExample();
    TrimExample();
  }

  lemma FirstFieldExample()
    ensures FirstField(" 10.0.0.1 , 10.0.0.2") == " 10.0.0.1 "
  {
    var header := " 10.0.0.1 , 10.0.0.2";
    var field := " 10.0.0.1 ";
    assert header[..10] == field && header[10] == ',';
    assert ',' !in field;
  }

  lemma TrimExample()
    ensures Trim(" 10.0.0.1 ") == "10.0.0.1"
  {
    var field := " 10.0.0.1 ";
    var address := "10.0.0.1";
    assert field == [' '] + address + [' '];
    assert field[1..] == address + [' '];
    assert !IsJsWhitespace(address[0]) && !IsJsWhitespace(address[7]);
    assert LeadingSpace(field) == 1;
    assert TrailingSpace(address + [' ']) == 1 by {
      assert (address + [' '])[..8] == address;
    }
  }

  lemma BlankAddressExample()
    ensures ClientIp(Some(" , 10.0.0.2")) == "unknown"
  {
    var header := " , 10.0.0.2";
    assert header[..1] == " " && header[1] == ',';
    assert FirstField(header) == " ";
    assert LeadingSpace(" ") == 1;
    assert Trim(" ") == "";
  }

  /** A single address with no comma and no white space is used verbatim. */
  lemma PlainAddressIsKept(address: string, pathname: string)
    requires address != [] && ',' !in address
    requires forall k :: 0 <= k < |address| ==> !IsJsWhitespace(address[k])
    ensures ClientKey(Some(address), pathname) == address + ":" + pathname
  {
    TrimKeepsPlain(address);
  }

  // ---------------------------------------------------------------------
  // The store transition
  // ---------------------------------------------------------------------

  /** The state machine of one request: whether it is limited, and the new store. */
  function Step(store: map<string, Entry>, key: string, now: int): (r: (bool, map<string, Entry>))
  {
    if key !in store || now > store[key].resetAt then
      (false, store[key := Entry(1, now + RATE_LIMIT_WINDOW_MS)])
    else if store[key].count >= RATE_LIMIT_MAX_REQUESTS then
      (true, store)
    else
      (false, store[key := Entry(store[key].count + 1, store[key].resetAt)])
  }

  /** Every stored count lies between 1 and the per-window maximum. */
  ghost predicate WellFormed(store: map<string, Entry>)
  {
    forall k :: k in store ==> 1 <= store[k].count <= RATE_LIMIT_MAX_REQUESTS
  }

  /** A window is opened by the first request for a key, or by the first one after the window expired. */
  lemma StepOpensWindow(store: map<string, Entry>, key: string, now: int)
    requires key !in store || now > store[key].resetAt
    ensures !Step(store, key, now).0
    ensures key in Step(store, key, now).1
    ensures Step(store, key, now).1[key] == Entry(1, now + RATE_LIMIT_WINDOW_MS)
  {
  }

  /** Inside a window the request is limited exactly when the count has reached the maximum; the window end never moves. */
  lemma StepInsideWindow(store: map<string, Entry>, key: string, now: int)
    requires key in store && now <= store[key].resetAt
    ensures Step(store, key, now).0 <==> store[key].count >= RATE_LIMIT_MAX_REQUESTS
    ensures Step(store, key, now).0 ==> Step(store, key, now).1 == store
    ensures !Step(store, key, now).0 ==>
      key in Step(store, key, now).1 &&
      Step(store, key, now).1[key] == Entry(store[key].count + 1, store[key].resetAt)
  {
  }

  /** A request is never limited unless it found a full, unexpired window; a limited request changes nothing. */
  lemma LimitedOnlyWhenFull(store: map<string, Entry>, key: string, now: int)
    ensures Step(store, key, now).0 <==>
      (key in store && now <= store[key].resetAt && store[key].count >= RATE_LIMIT_MAX_REQUESTS)
    ensures Step(store, key, now).0 ==> Step(store, key, now).1 == store
  {
  }

  /** Entries of every other key are left as they were, and no key disappears. */
  lemma StepTouchesOnlyItsKey(store: map<string, Entry>, key: string, now: int)
    ensures Step(store, key, now).1.Keys == store.Keys + {key}
    ensures forall k :: k in store && k != key ==> Step(store, key, now).1[k] == store[k]
  {
  }

  /** The counts stay between 1 and 60. */
  lemma StepKeepsWellFormed(store: map<string, Entry>, key: string, now: int)
    requires WellFormed(store)
    ensures WellFormed(Step(store, key, now).1)
  {
  }

  /** How many of a sequence of requests for one key pass, processed in order. */
  function Passed(store: map<string, Entry>, key: string, times: seq<int>): (n: nat)
    ensures n <= |times|
    decreases |times|
  {
    if |times| == 0 then 0
    else
      var (limited, next) := Step(store, key, times[0]);
      (if limited then 0 else 1) + Passed(next, key, times[1..])
  }

  /**
   * Inside a window that is already open, no more requests pass than the
   * count still allows: the window end is fixed, and each passing request
   * raises the count by one.
   */
  lemma {:induction false} PassedWithinOpenWindow(store: map<string, Entry>, key: string, times: seq<int>)
    requires key in store && store[key].count <= RATE_LIMIT_MAX_REQUESTS
    requires forall i :: 0 <= i < |times| ==> times[i] <= store[key].resetAt
    ensures Passed(store, key, times) <= RATE_LIMIT_MAX_REQUESTS - store[key].count
    decreases |times|
  {
    if |times| > 0 {
      var next := Step(store, key, times[0]).1;
      assert key in next && next[key].resetAt == store[key].resetAt;
      PassedWithinOpenWindow(next, key, times[1..]);
    }
  }

  /**
   * At most 60 requests for one key pass in the window opened at time t0:
   * the opening request and every later one up to t0 + 60 000 ms.
   */
  lemma AtMostMaxPerWindow(store: map<string, Entry>, key: string, t0: int, later: seq<int>)
    requires key !in store || t0 > store[key].resetAt
    requires forall i :: 0 <= i < |later| ==> later[i] <= t0 + RATE_LIMIT_WINDOW_MS
    ensures Passed(store, key, [t0] + later) <= RATE_LIMIT_MAX_REQUESTS
  {
    var next := Step(store, key, t0).1;
    assert ([t0] + later)[1..] == later;
    PassedWithinOpenWindow(next, key, later);
  }

  // ---------------------------------------------------------------------
  // The middleware gate
  // ---------------------------------------------------------------------

  predicate StartsWith(s: string, prefix: string)
  {
    |prefix| <= |s| && s[..|prefix|] == prefix
  }

  /** The middleware's decision: only "/api/" paths consult (and update) the limiter. */
  function Gate(store: map<string, Entry>, forwardedFor: Option<string>, pathname: string, now: int)
    : (r: (bool, map<string, Entry>))
  {
    if StartsWith(pathname, "/api/") then Step(store, ClientKey(forwardedFor, pathname), now)
    else (false, store)
  }

  /** A path outside "/api/" is never answered with 429 and leaves the store alone. */
  lemma NonApiPathsBypassLimiter(store: map<string, Entry>, forwardedFor: Option<string>, pathname: string, now: int)
    requires !StartsWith(pathname, "/api/")
    ensures Gate(store, forwardedFor, pathname, now) == (false, store)
  {
  }

  /** An "/api/" path is limited exactly when its key's window is full. */
  lemma ApiPathsUseTheirKey(store: map<string, Entry>, forwardedFor: Option<string>, pathname: string, now: int)
    requires StartsWith(pathname, "/api/")
    ensures var key := ClientKey(forwardedFor, pathname);
      Gate(store, forwardedFor, pathname, now).0 <==>
        (key in store && now <= store[key].resetAt && store[key].count >= RATE_LIMIT_MAX_REQUESTS)
  {
    LimitedOnlyWhenFull(store, ClientKey(forwardedFor, pathname), now);
  }

  /** The module-level store of middleware.ts, as an object. */
  class RateLimiter {
    var store: map<string, Entry>

    ghost predicate Valid()
      reads this
    {
      WellFormed(store)
    }

    constructor ()
      ensures Valid() && store == map[]
    {
      store := map[];
    }

    /** isRateLimited, with the request's header, pathname and clock passed in. */
    method IsRateLimited(forwardedFor: Option<string>, pathname: string, now: int) returns (limited: bool)
      requires Valid()
      modifies this
      ensures Valid()
      ensures (limited, store) == Step(old(store), ClientKey(forwardedFor, pathname), now)
    {
      var key := ClientKey(forwardedFor, pathname);
      limited := CountRequest(key, now);
    }

    /** The store update of isRateLimited for the request's key. */
    method CountRequest(key: string, now: int) returns (limited: bool)
      requires Valid()
      modifies this
      ensures Valid()
      ensures (limited, store) == Step(old(store), key, now)
    {
      StepKeepsWellFormed(store, key, now);
      var current := if key in store then Some(store[key]) else None;
      if current.None? || now > current.value.resetAt {
        store := store[key := Entry(1, now + RATE_LIMIT_WINDOW_MS)];
        return false;
      }
      if current.value.count >= RATE_LIMIT_MAX_REQUESTS {
        return true;
      }
      store := store[key := Entry(current.value.count + 1, current.value.resetAt)];
      return false;
    }

    /** The gate of middleware: true means the request is answered with 429. */
    method Middleware(forwardedFor: Option<string>, pathname: string, now: int) returns (tooMany: bool)
      requires Valid()
      modifies this
      ensures Valid()
      ensures (tooMany, store) == Gate(old(store), forwardedFor, pathname, now)
    {
      tooMany := false;
      if StartsWith(pathname, "/api/") {
        tooMany := IsRateLimited(forwardedFor, pathname, now);
      }
    }
  }
}
