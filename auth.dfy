/**
 * The authentication guard: a public route passes; otherwise the bearer
 * token is taken from the `Authorization` header, verified, and resolved to
 * a stored user, which is attached to the request.
 */
module Auth {
  import opened Common
  import opened User

  /** JavaScript's `s.split(sep)` for a one-character separator. */
  function Split(s: string, sep: char): (pieces: seq<string>)
    ensures |pieces| >= 1
    decreases |s|
  {
    if s == [] then [""]
    else
      var rest := Split(s[1..], sep);
      if s[0] == sep then [""] + rest
      else [[s[0]] + rest[0]] + rest[1..]
  }

  /** JavaScript's `pieces.join(sep)`. */
  function Join(pieces: seq<string>, sep: char): string
    decreases |pieces|
  {
    if pieces == [] then ""
    else if |pieces| == 1 then pieces[0]
    else pieces[0] + [sep] + Join(pieces[1..], sep)
  }

  /** Splitting loses nothing: joining the pieces gives the string back, and no piece holds the separator. */
  lemma {:induction false} SplitJoin(s: string, sep: char)
    ensures Join(Split(s, sep), sep) == s
    ensures forall i :: 0 <= i < |Split(s, sep)| ==> sep !in Split(s, sep)[i]
    decreases |s|
  {
    if s != [] {
      var rest := Split(s[1..], sep);
      SplitJoin(s[1..], sep);
      var pieces := Split(s, sep);
      if s[0] == sep {
        assert pieces[1..] == rest;
        assert s == [sep] + s[1..];
      } else {
        assert pieces[0] == [s[0]] + rest[0];
        if |rest| == 1 {
          assert s == [s[0]] + s[1..];
        } else {
          assert pieces[1..] == rest[1..];
          assert Join(rest, sep) == rest[0] + [sep] + Join(rest[1..], sep);
          assert s == [s[0]] + s[1..];
        }
        forall i | 0 <= i < |pieces| ensures sep !in pieces[i] {
          if i > 0 {
            assert pieces[i] == rest[i];
          }
        }
      }
    }
  }

  /**
   * The first piece is the text before the first separator; when there is a
   * separator, the remaining pieces are the split of the text after it.
   */
  lemma {:induction false} SplitHead(s: string, sep: char)
    ensures var p := Split(s, sep);
      && |p[0]| <= |s| && s[..|p[0]|] == p[0] && sep !in p[0]
      && (|p| == 1 ==> s == p[0])
      && (|p| >= 2 ==> |p[0]| < |s| && s[|p[0]|] == sep && Split(s[|p[0]| + 1..], sep) == p[1..])
    decreases |s|
  {
    if s != [] {
      SplitHead(s[1..], sep);
      var rest := Split(s[1..], sep);
      var p := Split(s, sep);
      if s[0] != sep {
        assert p[0] == [s[0]] + rest[0];
        assert s == [s[0]] + s[1..];
        if |p| >= 2 {
          assert s[|p[0]| + 1..] == s[1..][|rest[0]| + 1..];
          assert p[1..] == rest[1..];
        }
      } else {
        assert p[1..] == rest;
      }
    }
  }

  /** Splitting `p + sep + q` where `p` has no separator yields `p` followed by the pieces of `q`. */
  lemma {:induction false} SplitAtSeparator(p: string, q: string, sep: char)
    requires sep !in p
    ensures Split(p + [sep] + q, sep) == [p] + Split(q, sep)
    decreases |p|
  {
    var s := p + [sep] + q;
    if p == [] {
      assert s == [sep] + q && s[1..] == q;
    } else {
      assert s[1..] == p[1..] + [sep] + q;
      SplitAtSeparator(p[1..], q, sep);
      assert p == [p[0]] + p[1..];
    }
  }

  /** A string without the separator splits into itself. */
  lemma {:induction false} SplitWithoutSeparator(s: string, sep: char)
    requires sep !in s
    ensures Split(s, sep) == [s]
    decreases |s|
  {
    if s != [] {
      SplitWithoutSeparator(s[1..], sep);
      assert s == [s[0]] + s[1..];
    }
  }

  /** `extractTokenFromHeader`: the second space-separated piece, provided the first is exactly `Bearer`. */
  function ExtractTokenFromHeader(authorization: Option<string>): (token: Option<string>)
    ensures authorization.None? ==> token.None?
  {
    match authorization
    case None => None
    case Some(h) =>
      var pieces := Split(h, ' ');
      if pieces[0] == "Bearer" && |pieces| >= 2 then Some(pieces[1]) else None
  }

  /** Every header of the form `Bearer <token>[ <anything>]` yields its token. */
  lemma ExtractBearerToken(token: string, rest: string)
    requires ' ' !in token
    requires rest == [] || rest[0] == ' '
    ensures ExtractTokenFromHeader(Some("Bearer " + token + rest)) == Some(token)
  {
    var tail := token + rest;
    assert "Bearer " + token + rest == "Bearer" + [' '] + tail;
    SplitAtSeparator("Bearer", tail, ' ');
    if rest == [] {
      assert tail == token;
      SplitWithoutSeparator(token, ' ');
    } else {
      assert tail == token + [' '] + rest[1..];
      SplitAtSeparator(token, rest[1..], ' ');
    }
  }

  /**
   * Conversely, a header yields a token only if it starts with `Bearer `
   * followed by that token, which runs up to the next space or the end.
   */
  lemma ExtractedTokenShape(h: string)
    requires ExtractTokenFromHeader(Some(h)).Some?
    ensures var t := ExtractTokenFromHeader(Some(h)).value;
      && ' ' !in t
      && |h| >= 7 + |t| && h[..7] == "Bearer " && h[7..7 + |t|] == t
      && (|h| == 7 + |t| || h[7 + |t|] == ' ')
  {
    SplitHead(h, ' ');
    var pieces := Split(h, ' ');
    assert pieces[0] == "Bearer" && |pieces| >= 2;
    var after := h[7..];
    assert h[6] == ' ' && h[..6] == "Bearer";
    assert h[..7] == "Bearer ";
    SplitHead(after, ' ');
    var t := pieces[1];
    assert Split(after, ' ')[0] == t;
    assert after[..|t|] == t;
  }

  /** The incoming request: its header is read, its `user` is set by the guard. */
  class Request {
    const authorization: Option<string>
    var user: Option<ReturnUserDto>

    constructor (authorization: Option<string>)
      ensures this.authorization == authorization && user == None
    {
      this.authorization := authorization;
      user := None;
    }
  }

  class AuthGuard {
    const users: UserService
    /** The `JWT_SECRET` configuration entry, if set. */
    const jwtSecret: Option<string>
    /**
     * `jwtService.verifyAsync(token, { secret })`, left uninterpreted: the
     * payload's `sub` for a valid token, `None` where it throws.
     */
    const verifyAsync: (string, string) -> Option<int>

    constructor (users: UserService, jwtSecret: Option<string>, verifyAsync: (string, string) -> Option<int>)
      ensures this.users == users && this.jwtSecret == jwtSecret && this.verifyAsync == verifyAsync
    {
      this.users := users;
      this.jwtSecret := jwtSecret;
      this.verifyAsync := verifyAsync;
    }

    /** The subject the verifier reads from a token, with the secret defaulting to the empty string. */
    function Subject(token: string): Option<int> {
      verifyAsync(token, jwtSecret.GetOr(""))
    }

    method ValidateTokenAndFetchUser(token: string) returns (r: Result<ReturnUserDto>)
      ensures Subject(token).None? ==> r == Err(Unauthorized)
      ensures Subject(token).Some? && Subject(token).value !in users.table ==> r == Err(Unauthorized)
      ensures Subject(token).Some? && Subject(token).value in users.table
              ==> r == Ok(ToReturnUserDto(users.table[Subject(token).value]))
    {
      var secret := jwtSecret.GetOr("");
      var payload := verifyAsync(token, secret);
      if payload.None? {
        return Err(Unauthorized);
      }
      var user := users.FindOne(payload.value);
      if user.None? {
        return Err(Unauthorized);
      }
      r := Ok(user.value);
    }

    /** Either lets the request through (always with `true`) or throws `Unauthorized`. */
    method CanActivate(isPublic: bool, request: Request) returns (r: Result<bool>)
      modifies request
      ensures r.Ok? ==> r.value
      ensures r.Err? ==> r.error == Unauthorized && request.user == old(request.user)
      ensures isPublic ==> r == Ok(true) && request.user == old(request.user)
      ensures !isPublic && ExtractTokenFromHeader(request.authorization) in {None, Some("")} ==> r.Err?
      ensures r.Ok? && !isPublic ==>
                && ExtractTokenFromHeader(request.authorization).Some?
                && var sub := Subject(ExtractTokenFromHeader(request.authorization).value);
                   sub.Some? && sub.value in users.table && request.user == Some(ToReturnUserDto(users.table[sub.value]))
      ensures !isPublic && ExtractTokenFromHeader(request.authorization).Some? && ExtractTokenFromHeader(request.authorization) != Some("") ==>
                var sub := Subject(ExtractTokenFromHeader(request.authorization).value);
                r.Ok? <==> sub.Some? && sub.value in users.table
    {
      if isPublic {
        return Ok(true);
      }
      var token := ExtractTokenFromHeader(request.authorization);
      if token.None? || token.value == "" {
        return Err(Unauthorized);
      }
      var user := ValidateTokenAndFetchUser(token.value);
      if user.Err? {
        return Err(user.error);
      }
      request.user := Some(user.value);
      r := Ok(true);
    }
  }
}
