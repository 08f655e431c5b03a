/**
 * The browser side of the Supabase client (src/lib/supabaseClient.ts): on
 * load it reads the two token cookies out of `document.cookie` and restores
 * the session when both are present, and an auth listener writes or expires
 * the cookies as the user signs in, refreshes or signs out.
 *
 * The cookie string has the "; "-separated `name=value` form of section 5.4
 * of RFC 6265; a written cookie line is read, as in section 5.2 of RFC 6265,
 * as its name-value pair (the text before the first `;`) and attributes.
 */
module SessionCookies {
  import opened Text
  import opened Remote

  const AccessCookie := "my-access-token"
  const RefreshCookie := "my-refresh-token"

  /** The two tokens of a session. */
  datatype Tokens = Tokens(accessToken: string, refreshToken: string)

  /** The longest prefix of `t` without `;`: what `([^;]*)` captures. */
  function ValueRun(t: string): (v: string)
    ensures ';' !in v && v <= t
    ensures |v| == |t| || t[|v|] == ';'
  {
    if t == [] || t[0] == ';' then [] else [t[0]] + ValueRun(t[1..])
  }

  /** A value without `;` followed by the end or by `;` is captured whole. */
  lemma {:induction false} ValueRunOf(v: string, rest: string)
    requires ';' !in v
    requires rest == [] || rest[0] == ';'
    ensures ValueRun(v + rest) == v
  {
    if v != [] {
      assert (v + rest)[1..] == v[1..] + rest;
      ValueRunOf(v[1..], rest);
    }
  }

  /**
   * `(?:^|; )name=` can match with `name=` starting at `k`: at the start of
   * the string or right after "; ".
   */
  predicate MatchAt(s: string, name: string, k: int)
  {
    && 0 <= k <= |s|
    && (k == 0 || (k >= 2 && s[k - 2..k] == "; "))
    && name + "=" <= s[k..]
  }

  /** The first position from `i` on where `name=` can match. */
  function MatchIndex(s: string, name: string, i: nat): (k: Option<nat>)
    requires i <= |s| + 1
    ensures k.Some? ==> i <= k.value <= |s| && MatchAt(s, name, k.value)
    ensures k.Some? ==> forall j :: i <= j < k.value ==> !MatchAt(s, name, j)
    ensures k.None? ==> forall j :: i <= j <= |s| ==> !MatchAt(s, name, j)
    decreases |s| + 1 - i
  {
    if i > |s| then None
    else if MatchAt(s, name, i) then Some(i)
    else MatchIndex(s, name, i + 1)
  }

  /**
   * `cookie.match(/(?:^|; )name=([^;]*)/)?.[1]`: the captured value of the
   * leftmost match, or `None` when there is none.
   */
  function CookieValue(s: string, name: string): (r: Option<string>)
    ensures r.Some? ==> ';' !in r.value
  {
    match MatchIndex(s, name, 0)
    case None => None
    case Some(k) => Some(ValueRun(s[k + |name| + 1..]))
  }

  /**
   * The leftmost match decides: when `name=` can match at `k` and nowhere
   * before, the value is the run of non-`;` characters after it; when it can
   * match nowhere, there is no value.
   */
  lemma FirstMatchDecides(s: string, name: string, k: int)
    requires MatchAt(s, name, k)
    requires forall j :: 0 <= j < k ==> !MatchAt(s, name, j)
    ensures CookieValue(s, name) == Some(ValueRun(s[k + |name| + 1..]))
  {
    var m := MatchIndex(s, name, 0);
    assert m.Some?;
  }

  lemma NoMatchNoValue(s: string, name: string)
    requires forall j :: 0 <= j <= |s| ==> !MatchAt(s, name, j)
    ensures CookieValue(s, name) == None
  {
  }

  /** A cookie at the front of the string is read back whole. */
  lemma FrontRoundTrip(name: string, v: string, rest: string)
    requires ';' !in v
    requires rest == [] || rest[0] == ';'
    ensures CookieValue(name + "=" + v + rest, name) == Some(v)
  {
    var s := name + "=" + v + rest;
    assert s[0..] == (name + "=") + (v + rest);
    assert MatchAt(s, name, 0);
    FirstMatchDecides(s, name, 0);
    assert s[|name| + 1..] == v + rest;
    ValueRunOf(v, rest);
  }

  /** A longer cookie name that ends in the target name is not matched. */
  lemma LongerNameNotMatched()
    ensures CookieValue("xmy-access-token=abc", AccessCookie) == None
  {
    var s := "xmy-access-token=abc";
    forall j | 0 <= j <= |s| ensures !MatchAt(s, AccessCookie, j) {
      if j == 0 {
        assert s[0] != AccessCookie[0];
        assert (AccessCookie + "=")[0] != s[j..][0];
      } else if j >= 2 {
        assert s[j - 2] != ';';
        assert s[j - 2..j][0] != "; "[0];
      }
    }
    NoMatchNoValue(s, AccessCookie);
  }

  /**
   * `if (accessToken && refreshToken) setSession(...)`: the tokens to restore,
   * present only when both cookies hold a non-empty value.
   */
  function RestoredTokens(cookie: string): (t: Option<Tokens>)
    ensures t.Some? <==>
      && CookieValue(cookie, AccessCookie).Some? && CookieValue(cookie, AccessCookie).value != ""
      && CookieValue(cookie, RefreshCookie).Some? && CookieValue(cookie, RefreshCookie).value != ""
    ensures t.Some? ==>
      Some(t.value.accessToken) == CookieValue(cookie, AccessCookie) &&
      Some(t.value.refreshToken) == CookieValue(cookie, RefreshCookie)
  {
    var access := CookieValue(cookie, AccessCookie);
    var refresh := CookieValue(cookie, RefreshCookie);
    if access.Some? && access.value != "" && refresh.Some? && refresh.value != "" then
      Some(Tokens(access.value, refresh.value))
    else None
  }

  /** `new Date(0).toUTCString()`. */
  const Epoch := "Thu, 01 Jan 1970 00:00:00 GMT"

  /** `100 * 365 * 24 * 60 * 60`: a hundred years of seconds. */
  function MaxAge(): (n: nat)
    ensures n == 3153600000
  {
    100 * 365 * 24 * 60 * 60
  }

  /** The line that expires a cookie: an empty value and an expiry at the epoch. */
  function ExpiredCookie(name: string): string
  {
    name + "=; path=/; expires=" + Epoch + "; SameSite=Lax; secure"
  }

  /** The line that sets a cookie for a hundred years. */
  function LastingCookie(name: string, value: string): string
  {
    name + "=" + value + "; path=/; max-age=" + Decimal(MaxAge()) + "; SameSite=Lax; secure"
  }

  /** The name-value pair of a cookie line: the text before its first `;`. */
  function PairOf(line: string): (pair: string)
    ensures ';' !in pair
  {
    ValueRun(line)
  }

  /** A lasting cookie line carries its value in its name-value pair. */
  lemma LastingPair(name: string, value: string)
    requires ';' !in name + "=" + value
    ensures PairOf(LastingCookie(name, value)) == name + "=" + value
  {
    var tail := "; path=/; max-age=" + Decimal(MaxAge()) + "; SameSite=Lax; secure";
    assert tail[0] == ';';
    assert LastingCookie(name, value) == (name + "=" + value) + tail;
    ValueRunOf(name + "=" + value, tail);
  }

  /** An expired cookie line carries an empty value. */
  lemma ExpiredPair(name: string)
    requires ';' !in name + "="
    ensures PairOf(ExpiredCookie(name)) == name + "="
  {
    var tail := "; path=/; expires=" + Epoch + "; SameSite=Lax; secure";
    assert tail[0] == ';';
    assert ExpiredCookie(name) == (name + "=") + tail;
    ValueRunOf(name + "=", tail);
  }

  /** `session?.access_token` in a template: "undefined" without a session. */
  function AccessText(session: Option<Tokens>): string
  {
    if session.Some? then session.value.accessToken else "undefined"
  }

  function RefreshText(session: Option<Tokens>): string
  {
    if session.Some? then session.value.refreshToken else "undefined"
  }

  /**
   * A cookie after "; " is read back whole when its name cannot match at the
   * front and the cookies before it hold no `;`.
   */
  lemma SecondRoundTrip(front: string, name: string, v: string)
    requires ';' !in front && ';' !in v
    requires !MatchAt(front + "; " + (name + "=" + v), name, 0)
    ensures CookieValue(front + "; " + (name + "=" + v), name) == Some(v)
  {
    var s := front + "; " + (name + "=" + v);
    var k := |front| + 2;
    assert s[k..] == name + "=" + v;
    assert MatchAt(s, name, k);
    forall j | 0 < j < k ensures !MatchAt(s, name, j) {
      if j >= 2 {
        assert s[j - 2] == front[j - 2];
        assert s[j - 2..j][0] == s[j - 2];
      }
    }
    FirstMatchDecides(s, name, k);
    assert s[k + |name| + 1..] == v + [];
    ValueRunOf(v, []);
  }

  /** The cookie string holding the two token cookies, access first. */
  function TokenCookies(access: string, refresh: string): string
  {
    (AccessCookie + "=" + access) + "; " + (RefreshCookie + "=" + refresh)
  }

  lemma AccessTokenRead(access: string, refresh: string)
    requires ';' !in access
    ensures CookieValue(TokenCookies(access, refresh), AccessCookie) == Some(access)
  {
    FrontRoundTrip(AccessCookie, access, "; " + RefreshCookie + "=" + refresh);
    assert TokenCookies(access, refresh) == AccessCookie + "=" + access + ("; " + RefreshCookie + "=" + refresh);
  }

  lemma RefreshTokenRead(access: string, refresh: string)
    requires ';' !in access && ';' !in refresh
    ensures CookieValue(TokenCookies(access, refresh), RefreshCookie) == Some(refresh)
  {
    var s := TokenCookies(access, refresh);
    assert !MatchAt(s, RefreshCookie, 0) by {
      assert s[3] == 'a' && (RefreshCookie + "=")[3] == 'r';
    }
    SecondRoundTrip(AccessCookie + "=" + access, RefreshCookie, refresh);
  }

  /** The two token cookies restore the tokens they hold. */
  lemma TokenPairsRestored(access: string, refresh: string)
    requires access != "" && refresh != ""
    requires ';' !in access && ';' !in refresh
    ensures RestoredTokens(TokenCookies(access, refresh)) == Some(Tokens(access, refresh))
  {
    AccessTokenRead(access, refresh);
    RefreshTokenRead(access, refresh);
  }

  /**
   * The cookie string of two cookies, in the order written, read back
   * restores the tokens written, when neither is empty nor holds a `;`.
   */
  lemma WrittenTokensRestored(t: Tokens)
    requires t.accessToken != "" && t.refreshToken != ""
    requires ';' !in t.accessToken && ';' !in t.refreshToken
    ensures var cookie := PairOf(LastingCookie(AccessCookie, t.accessToken)) + "; " +
                          PairOf(LastingCookie(RefreshCookie, t.refreshToken));
      RestoredTokens(cookie) == Some(t)
  {
    LastingPair(AccessCookie, t.accessToken);
    LastingPair(RefreshCookie, t.refreshToken);
    TokenPairsRestored(t.accessToken, t.refreshToken);
  }

  /** After sign-out both cookies read back empty, so nothing is restored. */
  lemma ExpiredTokensNotRestored()
    ensures var cookie := PairOf(ExpiredCookie(AccessCookie)) + "; " + PairOf(ExpiredCookie(RefreshCookie));
      RestoredTokens(cookie) == None
  {
    ExpiredPair(AccessCookie);
    ExpiredPair(RefreshCookie);
    var back := RefreshCookie + "=";
    FrontRoundTrip(AccessCookie, "", "; " + back);
    assert PairOf(ExpiredCookie(AccessCookie)) + "; " + PairOf(ExpiredCookie(RefreshCookie))
        == AccessCookie + "=" + "" + ("; " + back);
  }

  /** An empty cookie string restores nothing. */
  lemma NoCookiesNotRestored()
    ensures RestoredTokens("") == None
  {
    assert !MatchAt("", AccessCookie, 0);
    NoMatchNoValue("", AccessCookie);
  }

  /** The browser-side client: the sessions it set and the cookie lines it wrote. */
  class BrowserSession {
    /** The tokens passed to `setSession`, oldest first. */
    var sessionsSet: seq<Tokens>
    /** The lines assigned to `document.cookie`, oldest first. */
    var cookieWrites: seq<string>

    /** Loading the client restores the session from the cookies when both tokens are there. */
    constructor(cookie: string)
      ensures RestoredTokens(cookie).Some? ==> sessionsSet == [RestoredTokens(cookie).value]
      ensures RestoredTokens(cookie).None? ==> sessionsSet == []
      ensures cookieWrites == []
    {
      var accessToken := CookieValue(cookie, AccessCookie);
      var refreshToken := CookieValue(cookie, RefreshCookie);
      sessionsSet := [];
      if accessToken.Some? && accessToken.value != "" && refreshToken.Some? && refreshToken.value != "" {
        sessionsSet := [Tokens(accessToken.value, refreshToken.value)];
      }
      cookieWrites := [];
    }

    /**
     * The auth listener: sign-out expires both cookies, sign-in and token
     * refresh write both tokens for a hundred years, other events write
     * nothing.
     */
    method OnAuthStateChange(event: AuthEvent, session: Option<Tokens>)
      modifies this
      ensures event == SignedOut ==>
        cookieWrites == old(cookieWrites) + [ExpiredCookie(AccessCookie), ExpiredCookie(RefreshCookie)]
      ensures event == SignedIn || event == TokenRefreshed ==>
        cookieWrites == old(cookieWrites) +
          [LastingCookie(AccessCookie, AccessText(session)), LastingCookie(RefreshCookie, RefreshText(session))]
      ensures event.OtherEvent? ==> cookieWrites == old(cookieWrites)
      ensures sessionsSet == old(sessionsSet)
    {
      if event == SignedOut {
        cookieWrites := cookieWrites + [ExpiredCookie(AccessCookie)];
        cookieWrites := cookieWrites + [ExpiredCookie(RefreshCookie)];
      } else if event == SignedIn || event == TokenRefreshed {
        var maxAge := MaxAge();
        cookieWrites := cookieWrites + [LastingCookie(AccessCookie, AccessText(session))];
        cookieWrites := cookieWrites + [LastingCookie(RefreshCookie, RefreshText(session))];
      }
    }
  }
}
