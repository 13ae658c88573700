/**
 * Client-side token handling of src/utils/auth.js: decoding the payload of a
 * JWT-shaped bearer token without verifying it, resolving identity claims
 * through ordered fallbacks, and the expiry check that purges the stored token.
 * `atob` and `JSON.parse` are parameters: partial functions that fail (None)
 * where the library call would throw.
 */
module Auth {
  import opened Wrappers
  import opened Js
  import opened Browser

  /** `s.split(sep)` for a one-character separator. */
  function Split(s: string, sep: char): (parts: seq<string>)
    ensures |parts| == Occurrences(s, sep) + 1
    ensures forall i | 0 <= i < |parts| :: sep !in parts[i]
    decreases |s|
  {
    if |s| == 0 then [""]
    else
      var rest := Split(s[1..], sep);
      if s[0] == sep then [""] + rest
      else [[s[0]] + rest[0]] + rest[1..]
  }

  /** `parts.join(sep)`: the inverse of Split. */
  function Join(parts: seq<string>, sep: char): string
    decreases |parts|
  {
    if |parts| == 0 then "" else if |parts| == 1 then parts[0] else parts[0] + [sep] + Join(parts[1..], sep)
  }

  lemma {:induction false} JoinSplit(s: string, sep: char)
    ensures Join(Split(s, sep), sep) == s
    decreases |s|
  {
    if |s| > 0 {
      var rest := Split(s[1..], sep);
      JoinSplit(s[1..], sep);
      if s[0] == sep {
        assert Split(s, sep)[1..] == rest;
      } else {
        var parts := Split(s, sep);
        assert parts[1..] == rest[1..];
        if |rest| == 1 {
          assert parts == [[s[0]] + rest[0]];
        } else {
          assert rest[1..][1..] == rest[2..];
          assert Join(rest, sep) == rest[0] + [sep] + Join(rest[1..], sep);
        }
      }
    }
  }

  /** A part without the separator splits to itself. */
  lemma {:induction false} SplitWithoutSeparator(a: string, sep: char)
    requires sep !in a
    ensures Split(a, sep) == [a]
    decreases |a|
  {
    if |a| > 0 {
      SplitWithoutSeparator(a[1..], sep);
      assert [a[0]] + a[1..] == a;
    }
  }

  /** A leading part without the separator becomes the first segment. */
  lemma {:induction false} SplitAfterPart(a: string, sep: char, rest: string)
    requires sep !in a
    ensures Split(a + [sep] + rest, sep) == [a] + Split(rest, sep)
    decreases |a|
  {
    var s := a + [sep] + rest;
    if |a| == 0 {
      assert s == [sep] + rest;
      assert s[1..] == rest;
    } else {
      assert s[1..] == a[1..] + [sep] + rest;
      SplitAfterPart(a[1..], sep, rest);
      assert [a[0]] + a[1..] == a;
    }
  }

  /** Splitting joined parts gives the parts back, when none holds the
      separator: the other half of the round trip. */
  lemma {:induction false} SplitJoin(parts: seq<string>, sep: char)
    requires |parts| >= 1
    requires forall i | 0 <= i < |parts| :: sep !in parts[i]
    ensures Split(Join(parts, sep), sep) == parts
    decreases |parts|
  {
    if |parts| == 1 {
      SplitWithoutSeparator(parts[0], sep);
    } else {
      SplitJoin(parts[1..], sep);
      SplitAfterPart(parts[0], sep, Join(parts[1..], sep));
      assert [parts[0]] + parts[1..] == parts;
    }
  }

  /** A token splits into exactly three segments exactly when it holds two dots. */
  lemma ThreeSegments(token: string)
    ensures |Split(token, '.')| == 3 <==> Occurrences(token, '.') == 2
  {
  }

  /** The base64url alphabet mapped onto standard base64: every '-' becomes
      '+', every '_' becomes '/', every other character is kept. */
  function Base64UrlToStandard(s: string): (r: string)
    ensures |r| == |s|
    ensures '-' !in r && '_' !in r
    ensures forall i | 0 <= i < |s| && s[i] != '-' && s[i] != '_' :: r[i] == s[i]
    ensures forall i | 0 <= i < |s| && s[i] == '-' :: r[i] == '+'
    ensures forall i | 0 <= i < |s| && s[i] == '_' :: r[i] == '/'
  {
    seq(|s|, i requires 0 <= i < |s| => if s[i] == '-' then '+' else if s[i] == '_' then '/' else s[i])
  }

  /** `decodeToken(token)`: the parsed payload segment, or null for an empty
      token, a token without exactly three segments, or a payload that `atob`
      or `JSON.parse` rejects. It never throws. */
  function DecodeToken(token: Option<string>, atob: string -> Option<string>, parse: string -> Option<Value>): (r: Value)
    ensures token.None? || token.value == "" ==> r == Null
    ensures token.Some? && |Split(token.value, '.')| != 3 ==> r == Null
    ensures r != Null ==>
              && token.Some? && |Split(token.value, '.')| == 3
              && var text := atob(Base64UrlToStandard(Split(token.value, '.')[1]));
              && text.Some? && parse(text.value) == Some(r)
    ensures token.Some? && |Split(token.value, '.')| == 3 ==>
              var text := atob(Base64UrlToStandard(Split(token.value, '.')[1]));
              && (text.Some? && parse(text.value).Some? ==> r == parse(text.value).value)
              && (text.None? || parse(text.value).None? ==> r == Null)
  {
    if token.None? || token.value == "" then Null
    else
      var parts := Split(token.value, '.');
      if |parts| != 3 then Null
      else
        match atob(Base64UrlToStandard(parts[1]))
        case None => Null
        case Some(text) =>
          match parse(text)
          case None => Null
          case Some(payload) => payload
  }

  /** Only the middle segment matters: two three-segment tokens with the same
      payload segment decode alike, whatever their header and signature. */
  lemma DecodeDependsOnlyOnPayload(t1: string, t2: string, atob: string -> Option<string>, parse: string -> Option<Value>)
    requires |Split(t1, '.')| == 3 && |Split(t2, '.')| == 3
    requires Split(t1, '.')[1] == Split(t2, '.')[1]
    ensures DecodeToken(Some(t1), atob, parse) == DecodeToken(Some(t2), atob, parse)
  {
  }

  /** A token assembled from a header, a payload and a signature segment
      decodes to what `JSON.parse` makes of the `atob` of the payload, and to
      null when either call throws. */
  lemma DecodeAssembledToken(header: string, payload: string, signature: string,
                             atob: string -> Option<string>, parse: string -> Option<Value>)
    requires '.' !in header && '.' !in payload && '.' !in signature
    ensures var text := atob(Base64UrlToStandard(payload));
      DecodeToken(Some(header + "." + payload + "." + signature), atob, parse)
        == if text.Some? && parse(text.value).Some? then parse(text.value).value else Null
  {
    var token := header + "." + payload + "." + signature;
    assert Join([header, payload, signature], '.') == token by {
      assert Join([header, payload, signature][1..], '.') == payload + "." + signature;
    }
    SplitJoin([header, payload, signature], '.');
  }

  /** `decoded.exp < Date.now() / 1000` with the clock in integer milliseconds:
      a number or boolean is compared numerically; any other value compares
      as NaN, which is never less. */
  predicate ExpiresBefore(exp: Value, nowMillis: int)
    ensures ExpiresBefore(exp, nowMillis) ==> exp.Num? || exp.Bool?
    ensures exp.Num? ==> (ExpiresBefore(exp, nowMillis) <==> exp.n * 1000 < nowMillis)
  {
    match exp
    case Num(n) => n * 1000 < nowMillis
    case Bool(b) => (if b then 1000 else 0) < nowMillis
    case _ => false
  }

  /** `decoded.exp && decoded.exp < currentTime`: a falsy `exp` (absent or 0)
      never counts as expired. */
  predicate IsExpired(decoded: Value, nowMillis: int)
    ensures IsExpired(decoded, nowMillis) ==> decoded.Obj? && "exp" in decoded.fields
    ensures Get(decoded, "exp") == Num(0) || Get(decoded, "exp") == Bool(false) ==> !IsExpired(decoded, nowMillis)
  {
    Truthy(Get(decoded, "exp")) && ExpiresBefore(Get(decoded, "exp"), nowMillis)
  }

  /** The user object `getUserFromToken` builds from the claims. */
  datatype TokenUser = TokenUser(
    userId: Value,
    username: Value,
    email: Value,
    firstName: Value,
    lastName: Value,
    exp: Value,
    iat: Value)

  const UsernameClaims := ["username", "sub", "user_id", "email", "preferred_username"]
  const UserIdClaims := ["sub", "user_id", "username"]

  function Claims(decoded: Value, names: seq<string>): (vs: seq<Value>)
    ensures |vs| == |names|
    ensures forall i | 0 <= i < |names| :: vs[i] == Get(decoded, names[i])
  {
    seq(|names|, i requires 0 <= i < |names| => Get(decoded, names[i]))
  }

  /** The claim fallbacks: `username || sub || user_id || email ||
      preferred_username || 'User'` and `sub || user_id || username ||
      <resolved username>`; email, first and last name default to null. */
  function ResolveClaims(decoded: Value): (u: TokenUser)
    ensures Truthy(u.username) && Truthy(u.userId)
    ensures u.exp == Get(decoded, "exp") && u.iat == Get(decoded, "iat")
    ensures u.email == (if Truthy(Get(decoded, "email")) then Get(decoded, "email") else Null)
    ensures u.firstName == (if Truthy(Get(decoded, "first_name")) then Get(decoded, "first_name")
                            else if Truthy(Get(decoded, "given_name")) then Get(decoded, "given_name") else Null)
    ensures u.lastName == (if Truthy(Get(decoded, "last_name")) then Get(decoded, "last_name")
                           else if Truthy(Get(decoded, "family_name")) then Get(decoded, "family_name") else Null)
  {
    var username := FirstTruthy(Claims(decoded, UsernameClaims), Str("User"));
    TokenUser(
      FirstTruthy(Claims(decoded, UserIdClaims), username),
      username,
      Or(Get(decoded, "email"), Null),
      Or(Or(Get(decoded, "first_name"), Get(decoded, "given_name")), Null),
      Or(Or(Get(decoded, "last_name"), Get(decoded, "family_name")), Null),
      Get(decoded, "exp"),
      Get(decoded, "iat"))
  }

  /** The username is the first truthy claim in the order username, sub,
      user_id, email, preferred_username, and "User" when there is none. */
  lemma UsernameResolution(decoded: Value)
    ensures var u := ResolveClaims(decoded);
      && (forall i | 0 <= i < |UsernameClaims| :: !Truthy(Get(decoded, UsernameClaims[i]))) ==> u.username == Str("User")
    ensures var u := ResolveClaims(decoded);
      forall i | 0 <= i < |UsernameClaims| && Truthy(Get(decoded, UsernameClaims[i]))
               && (forall j | 0 <= j < i :: !Truthy(Get(decoded, UsernameClaims[j]))) ::
        u.username == Get(decoded, UsernameClaims[i])
  {
    var vs := Claims(decoded, UsernameClaims);
    forall i | 0 <= i < |UsernameClaims| && Truthy(Get(decoded, UsernameClaims[i]))
               && (forall j | 0 <= j < i :: !Truthy(Get(decoded, UsernameClaims[j])))
      ensures ResolveClaims(decoded).username == Get(decoded, UsernameClaims[i])
    {
      FirstTruthyAt(vs, Str("User"), i);
    }
  }

  /** `a || b || c || fallback`, unfolded. */
  lemma FirstTruthyOfThree(a: Value, b: Value, c: Value, fallback: Value)
    ensures FirstTruthy([a, b, c], fallback)
         == if Truthy(a) then a else if Truthy(b) then b else if Truthy(c) then c else fallback
  {
    var vs := [a, b, c];
    if Truthy(a) {
      FirstTruthyAt(vs, fallback, 0);
    } else if Truthy(b) {
      FirstTruthyAt(vs, fallback, 1);
    } else if Truthy(c) {
      FirstTruthyAt(vs, fallback, 2);
    }
  }

  /** The user id is the first truthy of sub, user_id, username, and falls
      back to the resolved username, so it is "User" when no claim is set. */
  lemma UserIdResolution(decoded: Value)
    ensures var u := ResolveClaims(decoded);
      && (Truthy(Get(decoded, "sub")) ==> u.userId == Get(decoded, "sub"))
      && (!Truthy(Get(decoded, "sub")) && Truthy(Get(decoded, "user_id")) ==> u.userId == Get(decoded, "user_id"))
      && (!Truthy(Get(decoded, "sub")) && !Truthy(Get(decoded, "user_id")) ==> u.userId == u.username)
  {
    var u := ResolveClaims(decoded);
    var vs := Claims(decoded, UserIdClaims);
    assert vs == [Get(decoded, "sub"), Get(decoded, "user_id"), Get(decoded, "username")];
    FirstTruthyOfThree(vs[0], vs[1], vs[2], u.username);
    var names := Claims(decoded, UsernameClaims);
    assert names[0] == Get(decoded, "username");
  }

  /** What reading the stored token yields. */
  datatype TokenVerdict = NoToken | Undecodable | Expired | Valid(user: TokenUser)

  /** The decision `getUserFromToken` takes on the stored token. */
  function CheckToken(stored: Option<string>, nowMillis: int, atob: string -> Option<string>,
                      parse: string -> Option<Value>): (v: TokenVerdict)
    ensures v.Valid? ==> stored.Some? && stored.value != "" && Truthy(DecodeToken(stored, atob, parse))
                         && !IsExpired(DecodeToken(stored, atob, parse), nowMillis)
    ensures v.Valid? ==> v.user == ResolveClaims(DecodeToken(stored, atob, parse))
    ensures v.Expired? ==> IsExpired(DecodeToken(stored, atob, parse), nowMillis)
    ensures (stored.None? || stored.value == "") <==> v.NoToken?
    ensures stored.Some? && stored.value != "" ==>
              var d := DecodeToken(stored, atob, parse);
              && (v.Undecodable? <==> !Truthy(d))
              && (v.Expired? <==> Truthy(d) && IsExpired(d, nowMillis))
              && (v.Valid? <==> Truthy(d) && !IsExpired(d, nowMillis))
  {
    if stored.None? || stored.value == "" then NoToken
    else
      var decoded := DecodeToken(stored, atob, parse);
      if !Truthy(decoded) then Undecodable
      else if IsExpired(decoded, nowMillis) then Expired
      else Valid(ResolveClaims(decoded))
  }

  /** A stored token whose payload decodes and has expired is judged
      expired, so `getUserFromToken` purges it and yields no user. */
  lemma ExpiredTokenIsPurged(stored: Option<string>, nowMillis: int, atob: string -> Option<string>,
                             parse: string -> Option<Value>)
    requires stored.Some? && stored.value != ""
    requires Truthy(DecodeToken(stored, atob, parse)) && IsExpired(DecodeToken(stored, atob, parse), nowMillis)
    ensures CheckToken(stored, nowMillis, atob, parse) == Expired
  {
  }

  /** A stored token whose payload decodes and has not expired yields the
      user resolved from its claims. */
  lemma UnexpiredTokenYieldsUser(stored: Option<string>, nowMillis: int, atob: string -> Option<string>,
                                 parse: string -> Option<Value>)
    requires stored.Some? && stored.value != ""
    requires Truthy(DecodeToken(stored, atob, parse)) && !IsExpired(DecodeToken(stored, atob, parse), nowMillis)
    ensures CheckToken(stored, nowMillis, atob, parse) == Valid(ResolveClaims(DecodeToken(stored, atob, parse)))
  {
  }

  /** `getUserFromToken()`: the user built from a stored, decodable, unexpired
      token; an expired token is removed from storage; nothing else changes. */
  method GetUserFromToken(w: Window, nowMillis: int, atob: string -> Option<string>, parse: string -> Option<Value>)
    returns (user: Option<TokenUser>)
    modifies w
    ensures var verdict := CheckToken(old(w.GetItem(AccessTokenKey)), nowMillis, atob, parse);
      && (user.Some? <==> verdict.Valid?)
      && (user.Some? ==> user.value == verdict.user)
      && (w.storage == if verdict.Expired? then old(w.storage) - {AccessTokenKey} else old(w.storage))
    ensures w.history == old(w.history) && w.sent == old(w.sent)
  {
    var token := w.GetItem(AccessTokenKey);
    if token.None? || token.value == "" {
      return None;
    }
    var decoded := DecodeToken(token, atob, parse);
    if !Truthy(decoded) {
      return None;
    }
    if IsExpired(decoded, nowMillis) {
      w.RemoveItem(AccessTokenKey);
      return None;
    }
    user := Some(ResolveClaims(decoded));
  }

  /** `isAuthenticated()`: true exactly when `getUserFromToken()` yields a user
      (with the same purge of an expired token). */
  method IsAuthenticated(w: Window, nowMillis: int, atob: string -> Option<string>, parse: string -> Option<Value>)
    returns (authenticated: bool)
    modifies w
    ensures var verdict := CheckToken(old(w.GetItem(AccessTokenKey)), nowMillis, atob, parse);
      && (authenticated <==> verdict.Valid?)
      && (w.storage == if verdict.Expired? then old(w.storage) - {AccessTokenKey} else old(w.storage))
    ensures w.history == old(w.history) && w.sent == old(w.sent)
  {
    var user := GetUserFromToken(w, nowMillis, atob, parse);
    authenticated := user.Some?;
  }

  /** Expiry at one-second resolution: with `exp` one second in the past the
      token is expired, one second in the future it is not. */
  lemma ExpiryBoundary(decoded: Value, nowMillis: int)
    requires Get(decoded, "exp").Num? && Get(decoded, "exp").n > 0
    ensures Get(decoded, "exp").n * 1000 == nowMillis - 1000 ==> IsExpired(decoded, nowMillis)
    ensures Get(decoded, "exp").n * 1000 == nowMillis + 1000 ==> !IsExpired(decoded, nowMillis)
  {
  }
}
