/** The absolute form of uri.rl. */
module Uri {
  import Numeral

  /** scheme "://" [userinfo "@"] host [":" port] path ["?" query] ["#" fragment], the host a registered name. */
  datatype Uri = Uri(scheme: string, userinfo: string, host: string, port: nat, path: string,
                     query: string, fragment: string)

  const BLANK: Uri := Uri("", "", "", 0, "", "", "")

  /**
   * What Create does with a text. `Undefined`: it makes a string from a null mark, or atoi overflows.
   * `Elsewhere`: the text is rejected, or is of a form that is not modelled here.
   */
  datatype Created = Parsed(uri: Uri) | Undefined | Elsewhere

  // The grammar's character classes.

  predicate Alpha(c: char) {
    'a' <= c <= 'z' || 'A' <= c <= 'Z'
  }

  predicate Digit(c: char) {
    '0' <= c <= '9'
  }

  predicate HexDigit(c: char) {
    Digit(c) || 'a' <= c <= 'f' || 'A' <= c <= 'F'
  }

  predicate SchemeChar(c: char) {
    Alpha(c) || Digit(c) || c in "+-."
  }

  datatype Class = REG | USER | PATH | QUERY | DIGITS

  predicate RegChar(c: char) {
    Alpha(c) || Digit(c) || c in "-._~" || c in "!$&'()*+,;="
  }

  /** The characters of a class, apart from percent escapes. */
  predicate In(c: char, k: Class) {
    match k
    case REG => RegChar(c)
    case USER => RegChar(c) || c == ':'
    case PATH => RegChar(c) || c as int >= 128 || c in ":@/"
    case QUERY => RegChar(c) || c as int >= 128 || c in ":@/?"
    case DIGITS => Digit(c)
  }

  predicate EscapeAt(r: string, k: Class) {
    k != DIGITS && |r| >= 3 && r[0] == '%' && HexDigit(r[1]) && HexDigit(r[2])
  }

  /** How far a run of the class reaches. */
  function Len(r: string, k: Class): (n: nat)
    ensures n <= |r|
  {
    if r == "" then 0
    else if In(r[0], k) then 1 + Len(r[1..], k)
    else if EscapeAt(r, k) then 3 + Len(r[3..], k)
    else 0
  }

  /** The text is one run of the class. */
  predicate All(t: string, k: Class) {
    Len(t, k) == |t|
  }

  /** The text does not begin like the class. */
  predicate Stops(r: string, k: Class) {
    r == "" || (!In(r[0], k) && r[0] != '%')
  }

  lemma {:induction false} RunEnds(t: string, rest: string, k: Class)
    requires All(t, k) && Stops(rest, k)
    ensures Len(t + rest, k) == |t|
  {
    var s := t + rest;
    if t == "" {
      assert s == rest;
    } else if In(t[0], k) {
      assert s[1..] == t[1..] + rest;
      RunEnds(t[1..], rest, k);
    } else {
      assert s[3..] == t[3..] + rest;
      RunEnds(t[3..], rest, k);
    }
  }

  lemma {:induction false} RunJoins(t: string, u: string, k: Class)
    requires All(t, k) && All(u, k)
    ensures All(t + u, k)
  {
    var s := t + u;
    if t == "" {
      assert s == u;
    } else if In(t[0], k) {
      assert s[1..] == t[1..] + u;
      RunJoins(t[1..], u, k);
    } else {
      assert s[3..] == t[3..] + u;
      RunJoins(t[3..], u, k);
    }
  }

  /** Registered names and digits may stand in a userinfo. */
  lemma {:induction false} RunWidens(t: string, k: Class)
    requires All(t, k) && (k == REG || k == DIGITS)
    ensures All(t, USER)
  {
    if t != "" {
      RunWidens(if In(t[0], k) then t[1..] else t[3..], k);
    }
  }

  function SchemeLen(s: string): (n: nat)
    ensures n <= |s|
  {
    if s == "" || !SchemeChar(s[0]) then 0 else 1 + SchemeLen(s[1..])
  }

  predicate IsScheme(t: string) {
    t != "" && Alpha(t[0]) && SchemeLen(t) == |t|
  }

  // Printing.

  predicate IsDefaultPort(u: Uri) {
    u.port == 0 || (u.scheme == "http" && u.port == 80) || (u.scheme == "https" && u.port == 443)
  }

  function GetPath(u: Uri): (p: string)
    ensures p != ""
  {
    if u.path == "" then "/" else u.path
  }

  function GetPort(u: Uri): nat {
    if u.port != 0 then u.port
    else if u.scheme == "http" then 80
    else if u.scheme == "https" then 443
    else 0
  }

  function UserText(u: Uri): string {
    if u.userinfo == "" then "" else u.userinfo + "@"
  }

  function PortText(u: Uri): string {
    if IsDefaultPort(u) then "" else ":" + Numeral.Print(u.port, Numeral.DEC)
  }

  function FragmentText(u: Uri): string {
    if u.fragment == "" then "" else "#" + u.fragment
  }

  function QueryText(u: Uri): string {
    (if u.query == "" then "" else "?" + u.query) + FragmentText(u)
  }

  /** dump. */
  function ToString(u: Uri): string {
    u.scheme + ("://" + (UserText(u) + (u.host + (PortText(u) + (GetPath(u) + QueryText(u))))))
  }

  // Reading.

  const INT_LIMIT := 0x8000_0000

  /** From the query on. */
  function ParseQuery(r: string, u: Uri): Created {
    if r != "" && r[0] == '?' then
      var n := Len(r[1..], QUERY);
      ParseFragment(r[1 + n..], u.(query := r[1..1 + n]))
    else ParseFragment(r, u)
  }

  function ParseFragment(r: string, u: Uri): Created {
    if r == "" then Parsed(u)
    else if r[0] == '#' && Len(r[1..], QUERY) == |r| - 1 then Parsed(u.(fragment := r[1..]))
    else Elsewhere
  }

  predicate EndsPath(r: string) {
    r == "" || r[0] == '?' || r[0] == '#'
  }

  /** From the path on; `marked` is whether the mark stands at its start. */
  function ParsePath(r: string, u: Uri, marked: bool): Created {
    var n := if r != "" && r[0] == '/' then Len(r, PATH) else 0;
    if !EndsPath(r[n..]) then Elsewhere
    else if !marked then Undefined
    else ParseQuery(r[n..], u.(path := r[..n]))
  }

  /** From the colon of the port on, or from the path on if there is none. */
  function ParsePort(r: string, u: Uri): Created {
    if r == "" || r[0] != ':' then ParsePath(r, u, true)
    else
      var n := Len(r[1..], DIGITS);
      var v := Numeral.Value(r[1..1 + n], Numeral.DEC);
      var rest := r[1 + n..];
      if n == 0 then ParsePath(rest, u, false)
      else if !EndsPath(rest) && rest[0] != '/' then Elsewhere
      else if v >= INT_LIMIT then Undefined
      else ParsePath(rest, u.(port := v), true)
  }

  function ParseHost(r: string, u: Uri): Created {
    var n := Len(r, REG);
    ParsePort(r[n..], u.(host := r[..n]))
  }

  /** The place of the first colon, or the end. */
  function Colon(t: string): (n: nat)
    ensures n <= |t|
    ensures forall i :: 0 <= i < n ==> t[i] != ':'
    ensures n < |t| ==> t[n] == ':'
  {
    if t == "" || t[0] == ':' then 0 else 1 + Colon(t[1..])
  }

  /** A digit right behind the first colon, which the scanner takes for the start of a port. */
  predicate LooksLikePort(t: string) {
    var c := Colon(t);
    c + 1 < |t| && Digit(t[c + 1])
  }

  /** What the mark action makes of a userinfo: only the part from such a digit on is kept. */
  function KeptUserinfo(t: string): string {
    if LooksLikePort(t) then t[Colon(t) + 1..] else t
  }

  /** From the authority on. */
  function ParseAuthority(r: string, u: Uri): Created {
    var n := Len(r, USER);
    if n < |r| && r[n] == '@' then ParseHost(r[n + 1..], u.(userinfo := KeptUserinfo(r[..n])))
    else ParseHost(r, u)
  }

  function Parse(s: string): Created {
    var n := SchemeLen(s);
    if n == 0 || !Alpha(s[0]) || |s| < n + 3 || s[n..n + 3] != "://" then Elsewhere
    else ParseAuthority(s[n + 3..], BLANK.(scheme := s[..n]))
  }

  // Printing and reading.

  predicate Valid(u: Uri) {
    && IsScheme(u.scheme) && All(u.userinfo, USER) && All(u.host, REG)
    && (u.path != "" ==> u.path[0] == '/') && All(u.path, PATH)
    && All(u.query, QUERY) && All(u.fragment, QUERY) && u.port < INT_LIMIT
  }

  /** Same answers from every getter. */
  predicate Agree(u: Uri, v: Uri) {
    && u.scheme == v.scheme && u.userinfo == v.userinfo && u.host == v.host && GetPort(u) == GetPort(v)
    && GetPath(u) == GetPath(v) && u.query == v.query && u.fragment == v.fragment
  }

  lemma {:induction false} SchemeReads(t: string, rest: string)
    requires SchemeLen(t) == |t| && rest != "" && !SchemeChar(rest[0])
    ensures SchemeLen(t + rest) == |t|
  {
    var s := t + rest;
    if t == "" {
      assert s == rest;
    } else {
      assert s[1..] == t[1..] + rest;
      SchemeReads(t[1..], rest);
    }
  }

  lemma {:induction false} FragmentReads(u: Uri, v: Uri)
    requires All(u.fragment, QUERY)
    ensures ParseFragment(FragmentText(u), v) ==
              Parsed(v.(fragment := if u.fragment == "" then v.fragment else u.fragment))
    ensures Stops(FragmentText(u), QUERY)
  {
    if u.fragment != "" {
      assert FragmentText(u)[1..] == u.fragment;
    }
  }

  lemma {:induction false} QueryReads(u: Uri, v: Uri)
    requires All(u.query, QUERY) && All(u.fragment, QUERY)
    ensures ParseQuery(QueryText(u), v) == Parsed(v.(query := if u.query == "" then v.query else u.query,
                                                    fragment := if u.fragment == "" then v.fragment else u.fragment))
  {
    hide Len, ParseFragment, Stops;
    var f, r := FragmentText(u), QueryText(u);
    if u.query != "" {
      FragmentReads(u, v.(query := u.query));
      RunEnds(u.query, f, QUERY);
      assert r[1..] == u.query + f;
      assert r[1..1 + |u.query|] == u.query && r[1 + |u.query|..] == f;
    } else {
      FragmentReads(u, v);
      assert r == f;
    }
  }

  lemma {:induction false} PathReads(u: Uri, v: Uri)
    requires All(u.path, PATH) && (u.path != "" ==> u.path[0] == '/')
    ensures ParsePath(GetPath(u) + QueryText(u), v, true) == ParseQuery(QueryText(u), v.(path := GetPath(u)))
  {
    var p, q := GetPath(u), QueryText(u);
    assert All(p, PATH) by {
      assert "/"[1..] == "";
    }
    RunEnds(p, q, PATH);
    assert (p + q)[..|p|] == p && (p + q)[|p|..] == q;
  }

  lemma {:induction false} DigitsAreRun(t: string)
    requires forall i :: 0 <= i < |t| ==> Numeral.DigitValue(t[i]) < 10
    ensures All(t, DIGITS)
  {
    if t != "" {
      assert Digit(t[0]);
      DigitsAreRun(t[1..]);
    }
  }

  lemma {:induction false} PortReads(u: Uri, v: Uri)
    requires u.port < INT_LIMIT
    ensures var rest := GetPath(u) + QueryText(u);
            GetPath(u)[0] == '/' ==>
              ParsePort(PortText(u) + rest, v) ==
                  ParsePath(rest, if IsDefaultPort(u) then v else v.(port := u.port), true)
  {
    hide Len, ParsePath, Numeral.Print, Numeral.Value, GetPath, QueryText;
    var rest := GetPath(u) + QueryText(u);
    var r := PortText(u) + rest;
    if GetPath(u)[0] == '/' {
      if IsDefaultPort(u) {
        assert r == rest;
      } else {
        var d := Numeral.Print(u.port, Numeral.DEC);
        Numeral.PrintIsRead(u.port, Numeral.DEC);
        DigitsAreRun(d);
        RunEnds(d, rest, DIGITS);
        assert r[1..] == d + rest;
        assert r[1..1 + |d|] == d && r[1 + |d|..] == rest;
      }
    }
  }

  lemma {:induction false} HostReads(u: Uri, v: Uri, rest: string)
    requires All(u.host, REG) && rest != "" && (rest[0] == ':' || rest[0] == '/')
    ensures ParseHost(u.host + rest, v) == ParsePort(rest, v.(host := u.host))
  {
    RunEnds(u.host, rest, REG);
    var r := u.host + rest;
    assert r[..|u.host|] == u.host && r[|u.host|..] == rest;
  }

  /** Host and port may be read as userinfo, up to the slash of the path. */
  lemma {:induction false} HostAndPortAreRun(u: Uri)
    requires All(u.host, REG)
    ensures All(u.host + PortText(u), USER)
  {
    RunWidens(u.host, REG);
    if IsDefaultPort(u) {
      assert u.host + PortText(u) == u.host;
    } else {
      var d := Numeral.Print(u.port, Numeral.DEC);
      Numeral.PrintIsRead(u.port, Numeral.DEC);
      DigitsAreRun(d);
      RunWidens(d, DIGITS);
      assert All(":", USER) by {
        assert ":"[1..] == "";
      }
      RunJoins(":", d, USER);
      RunJoins(u.host, PortText(u), USER);
    }
  }

  lemma {:induction false} AuthorityReads(u: Uri, v: Uri, tail: string)
    requires All(u.userinfo, USER) && All(u.host, REG) && tail != "" && tail[0] == '/'
    ensures ParseAuthority(UserText(u) + (u.host + (PortText(u) + tail)), v) ==
              ParseHost(u.host + (PortText(u) + tail),
                        if u.userinfo == "" then v else v.(userinfo := KeptUserinfo(u.userinfo)))
  {
    hide Len, ParseHost, PortText, KeptUserinfo;
    var hp := u.host + (PortText(u) + tail);
    var r := UserText(u) + hp;
    if u.userinfo == "" {
      assert r == hp == (u.host + PortText(u)) + tail;
      HostAndPortAreRun(u);
      RunEnds(u.host + PortText(u), tail, USER);
    } else {
      var n := |u.userinfo|;
      assert r == u.userinfo + ("@" + hp);
      RunEnds(u.userinfo, "@" + hp, USER);
      assert r[..n] == u.userinfo && r[n + 1..] == hp;
    }
  }

  /** What reading makes of a printed URI. */
  function Reread(u: Uri): Uri {
    u.(userinfo := KeptUserinfo(u.userinfo), port := if IsDefaultPort(u) then 0 else u.port, path := GetPath(u))
  }

  lemma {:induction false} ParseToString(u: Uri)
    requires Valid(u)
    ensures Parse(ToString(u)) == Parsed(Reread(u))
  {
    hide ParseAuthority, ParseHost, ParsePort, ParsePath, ParseQuery, Len, KeptUserinfo, QueryText, PortText, UserText;
    var tail := GetPath(u) + QueryText(u);
    var host := u.host + (PortText(u) + tail);
    var rest := "://" + (UserText(u) + host);
    var s, n := ToString(u), |u.scheme|;
    SchemeReads(u.scheme, rest);
    assert s == u.scheme + rest;
    assert s[..n] == u.scheme && s[n..] == rest && s[n..n + 3] == "://";
    assert s[n + 3..] == UserText(u) + host && s[0] == u.scheme[0];
    var v0 := BLANK.(scheme := u.scheme);
    AuthorityReads(u, v0, tail);
    var v1 := if u.userinfo == "" then v0 else v0.(userinfo := KeptUserinfo(u.userinfo));
    assert (PortText(u) + tail)[0] == ':' || (PortText(u) + tail)[0] == '/' by {
      PortTextStarts(u, tail);
    }
    HostReads(u, v1, PortText(u) + tail);
    var v2 := v1.(host := u.host);
    PortReads(u, v2);
    var v3 := if IsDefaultPort(u) then v2 else v2.(port := u.port);
    PathReads(u, v3);
    QueryReads(u, v3.(path := GetPath(u)));
    NothingKept();
  }

  lemma {:induction false} PortTextStarts(u: Uri, tail: string)
    requires tail != "" && tail[0] == '/'
    ensures (PortText(u) + tail)[0] == ':' || (PortText(u) + tail)[0] == '/'
  {
  }

  lemma {:induction false} NothingKept()
    ensures KeptUserinfo("") == ""
  {
  }

  /**
   * Every valid URI is read back from its own text, and the result agrees with it in every getter if
   * and only if its userinfo has no digit right behind its first colon. The default port that was not
   * printed and the empty path that was printed as a slash make no difference.
   */
  lemma {:induction false} RoundTrip(u: Uri)
    requires Valid(u)
    ensures Parse(ToString(u)).Parsed?
    ensures Agree(u, Parse(ToString(u)).uri) <==> !LooksLikePort(u.userinfo)
  {
    ParseToString(u);
    if LooksLikePort(u.userinfo) {
      assert |KeptUserinfo(u.userinfo)| < |u.userinfo|;
    }
  }

  // Whatever is accepted is valid.

  lemma {:induction false} TakenIsRun(r: string, k: Class)
    ensures All(r[..Len(r, k)], k)
  {
    var t := r[..Len(r, k)];
    if t != "" {
      if In(r[0], k) {
        TakenIsRun(r[1..], k);
        assert t[1..] == r[1..][..Len(r[1..], k)];
      } else {
        TakenIsRun(r[3..], k);
        assert t[3..] == r[3..][..Len(r[3..], k)];
      }
    }
  }

  lemma {:induction false} RunAfterColon(t: string, c: nat)
    requires All(t, USER) && c < |t| && t[c] == ':'
    ensures All(t[c + 1..], USER)
  {
    if c > 0 {
      if In(t[0], USER) {
        RunAfterColon(t[1..], c - 1);
        assert t[1..][c..] == t[c + 1..];
      } else {
        assert t[1] != ':' && t[2] != ':';
        RunAfterColon(t[3..], c - 3);
        assert t[3..][c - 2..] == t[c + 1..];
      }
    }
  }

  lemma {:induction false} TakenIsScheme(s: string)
    ensures SchemeLen(s[..SchemeLen(s)]) == SchemeLen(s)
  {
    var n := SchemeLen(s);
    if n > 0 {
      TakenIsScheme(s[1..]);
      assert s[..n][1..] == s[1..][..n - 1];
    }
  }

  /** Valid as far as it has been read: everything but path, query and fragment. */
  predicate ValidSoFar(u: Uri) {
    Valid(u.(path := "", query := "", fragment := "")) && u.path == "" && u.query == "" && u.fragment == ""
  }

  lemma {:induction false} QueryIsValid(r: string, u: Uri)
    requires Valid(u) && u.query == "" && u.fragment == ""
    ensures ParseQuery(r, u).Parsed? ==> Valid(ParseQuery(r, u).uri)
  {
    if r != "" {
      TakenIsRun(r[1..], QUERY);
      var n := Len(r[1..], QUERY);
      assert r[1..1 + n] == r[1..][..n];
    }
  }

  lemma {:induction false} PathIsValid(r: string, u: Uri, marked: bool)
    requires ValidSoFar(u)
    ensures ParsePath(r, u, marked).Parsed? ==> Valid(ParsePath(r, u, marked).uri)
  {
    hide ParseQuery;
    TakenIsRun(r, PATH);
    var n := if r != "" && r[0] == '/' then Len(r, PATH) else 0;
    var v := u.(path := r[..n]);
    QueryIsValid(r[n..], v);
  }

  lemma {:induction false} HostIsValid(r: string, u: Uri)
    requires ValidSoFar(u)
    ensures ParseHost(r, u).Parsed? ==> Valid(ParseHost(r, u).uri)
  {
    hide ParsePath, Len;
    TakenIsRun(r, REG);
    var h := Len(r, REG);
    var v, t := u.(host := r[..h]), r[h..];
    PathIsValid(t, v, true);
    if t != "" {
      var n := Len(t[1..], DIGITS);
      PathIsValid(t[1 + n..], v, false);
      if Numeral.Value(t[1..1 + n], Numeral.DEC) < INT_LIMIT {
        PathIsValid(t[1 + n..], v.(port := Numeral.Value(t[1..1 + n], Numeral.DEC)), true);
      }
    }
  }

  lemma {:induction false} KeptIsRun(t: string)
    requires All(t, USER)
    ensures All(KeptUserinfo(t), USER)
  {
    if LooksLikePort(t) {
      RunAfterColon(t, Colon(t));
    }
  }

  lemma {:induction false} AuthorityIsValid(r: string, u: Uri)
    requires ValidSoFar(u)
    ensures ParseAuthority(r, u).Parsed? ==> Valid(ParseAuthority(r, u).uri)
  {
    hide ParseHost, Len, KeptUserinfo;
    var k := Len(r, USER);
    TakenIsRun(r, USER);
    HostIsValid(r, u);
    if k < |r| {
      KeptIsRun(r[..k]);
      HostIsValid(r[k + 1..], u.(userinfo := KeptUserinfo(r[..k])));
    }
  }

  /** Every URI that Create makes of an absolute text is valid, so that the round trip applies to it. */
  lemma {:induction false} ParsedIsValid(s: string)
    requires Parse(s).Parsed?
    ensures Valid(Parse(s).uri)
  {
    hide ParseAuthority;
    var n := SchemeLen(s);
    TakenIsScheme(s);
    AuthorityIsValid(s[n + 3..], BLANK.(scheme := s[..n]));
  }

  // Where Create is undefined.

  /** What may come behind a port: nothing, a path, a query or a fragment. */
  predicate EndsPort(r: string) {
    EndsPath(r) || r[0] == '/'
  }

  /** The path that begins here, if one does, is followed by a query, a fragment or nothing. */
  predicate PathEnds(r: string) {
    EndsPort(r) && (r != "" && r[0] == '/' ==> EndsPath(r[Len(r, PATH)..]))
  }

  predicate UserPart(user: string) {
    user == "" || (user[|user| - 1] == '@' && All(user[..|user| - 1], USER))
  }

  /** The text has a port that is empty, in front of a path that ends well, or too large for an int. */
  predicate BadPort(s: string, scheme: string, user: string, host: string, digits: string, tail: string) {
    && s == scheme + ("://" + (user + (host + (":" + (digits + tail)))))
    && IsScheme(scheme) && UserPart(user) && All(host, REG) && All(digits, DIGITS)
    && (if digits == "" then PathEnds(tail) else EndsPort(tail) && Numeral.Value(digits, Numeral.DEC) >= INT_LIMIT)
  }

  /** Only the path misses its mark, and only where it is complete. */
  lemma {:induction false} PathUndefinedIff(r: string, u: Uri, marked: bool)
    ensures ParsePath(r, u, marked).Undefined? <==> !marked && PathEnds(r)
  {
  }

  /** From the host on. */
  lemma {:induction false} BadPortReads(host: string, digits: string, tail: string, u: Uri)
    requires All(host, REG) && All(digits, DIGITS)
    requires if digits == "" then PathEnds(tail) else EndsPort(tail) && Numeral.Value(digits, Numeral.DEC) >= INT_LIMIT
    ensures ParseHost(host + (":" + (digits + tail)), u).Undefined?
  {
    hide Numeral.Value;
    var port := ":" + (digits + tail);
    var r := host + port;
    RunEnds(host, port, REG);
    assert r[..|host|] == host && r[|host|..] == port;
    RunEnds(digits, tail, DIGITS);
    assert port[1..] == digits + tail && port[1..1 + |digits|] == digits && port[1 + |digits|..] == tail;
  }

  /** Up to the authority. */
  lemma {:induction false} AuthorityFollows(scheme: string, r: string)
    requires IsScheme(scheme)
    ensures Parse(scheme + ("://" + r)) == ParseAuthority(r, BLANK.(scheme := scheme))
  {
    hide ParseAuthority;
    var n, rest := |scheme|, "://" + r;
    var s := scheme + rest;
    SchemeReads(scheme, rest);
    assert s[..n] == scheme && s[n..] == rest && s[0] == scheme[0];
    assert s[n..n + 3] == "://" && s[n + 3..] == r;
  }

  lemma {:induction false} BadPortIsUndefined(s: string, scheme: string, user: string, host: string,
                                              digits: string, tail: string)
    requires BadPort(s, scheme, user, host, digits, tail)
    ensures Parse(s).Undefined?
  {
    hide Len, Parse, ParseHost, KeptUserinfo, PathEnds, Numeral.Value;
    var hp, v := host + (":" + (digits + tail)), BLANK.(scheme := scheme);
    AuthorityFollows(scheme, user + hp);
    var r := user + hp;
    assert EndsPort(tail) by {
      PathEndsPort(tail);
    }
    if user == "" {
      assert r == hp == (host + (":" + digits)) + tail;
      HostAndDigitsAreRun(host, digits);
      RunEnds(host + (":" + digits), tail, USER);
      BadPortReads(host, digits, tail, v);
    } else {
      var k := |user| - 1;
      assert r == user[..k] + ("@" + hp);
      RunEnds(user[..k], "@" + hp, USER);
      assert r[..k] == user[..k] && r[k + 1..] == hp;
      BadPortReads(host, digits, tail, v.(userinfo := KeptUserinfo(user[..k])));
    }
  }

  lemma {:induction false} PathEndsPort(r: string)
    ensures PathEnds(r) ==> EndsPort(r)
  {
  }

  lemma {:induction false} HostAndDigitsAreRun(host: string, digits: string)
    requires All(host, REG) && All(digits, DIGITS)
    ensures All(host + (":" + digits), USER)
  {
    RunWidens(host, REG);
    RunWidens(digits, DIGITS);
    assert All(":", USER) by {
      assert ":"[1..] == "";
    }
    RunJoins(":", digits, USER);
    RunJoins(host, ":" + digits, USER);
  }

  /** The parts of what is read from the host on, when that is undefined. */
  lemma {:induction false} UndefinedHost(r: string, u: Uri) returns (host: string, digits: string, tail: string)
    requires ParseHost(r, u).Undefined?
    ensures r == host + (":" + (digits + tail)) && All(host, REG) && All(digits, DIGITS)
    ensures if digits == "" then PathEnds(tail) else EndsPort(tail) && Numeral.Value(digits, Numeral.DEC) >= INT_LIMIT
  {
    hide Len, ParsePath, PathEnds, EndsPath, Numeral.Value;
    var n := Len(r, REG);
    TakenIsRun(r, REG);
    host := r[..n];
    var port := r[n..];
    PathUndefinedIff(port, u.(host := host), true);
    var m := Len(port[1..], DIGITS);
    TakenIsRun(port[1..], DIGITS);
    digits, tail := port[1..][..m], port[1 + m..];
    assert port[1..1 + m] == digits;
    if m == 0 {
      PathUndefinedIff(tail, u.(host := host), false);
    } else {
      PathUndefinedIff(tail, u.(host := host, port := Numeral.Value(digits, Numeral.DEC)), true);
    }
    assert port == ":" + (digits + tail);
    assert r == host + port;
  }

  lemma {:induction false} UndefinedHasBadPort(s: string)
    requires Parse(s).Undefined?
    ensures exists scheme, user, host, digits, tail :: BadPort(s, scheme, user, host, digits, tail)
  {
    hide Len, ParseHost, KeptUserinfo, PathEnds, Numeral.Value;
    var n := SchemeLen(s);
    TakenIsScheme(s);
    var scheme, r := s[..n], s[n + 3..];
    var k := Len(r, USER);
    TakenIsRun(r, USER);
    var u := BLANK.(scheme := scheme);
    var user, hp := "", r;
    if k < |r| && r[k] == '@' {
      user, hp, u := r[..k + 1], r[k + 1..], u.(userinfo := KeptUserinfo(r[..k]));
      assert user[..|user| - 1] == r[..k];
    }
    var host, digits, tail := UndefinedHost(hp, u);
    assert s == scheme + ("://" + (user + hp));
    assert BadPort(s, scheme, user, host, digits, tail);
  }

  /** Create runs into undefined behaviour exactly for the texts with a bad port. */
  lemma {:induction false} UndefinedIff(s: string)
    ensures Parse(s).Undefined? <==>
              (exists scheme, user, host, digits, tail :: BadPort(s, scheme, user, host, digits, tail))
  {
    if Parse(s).Undefined? {
      UndefinedHasBadPort(s);
    }
    if scheme, user, host, digits, tail :| BadPort(s, scheme, user, host, digits, tail) {
      BadPortIsUndefined(s, scheme, user, host, digits, tail);
    }
  }

  /** An empty port, whatever the host. */
  lemma {:induction false} EmptyPort(scheme: string, host: string)
    requires IsScheme(scheme) && All(host, REG)
    ensures Parse(scheme + ("://" + (host + ":/"))).Undefined?
  {
    assert EndsPath("/"[Len("/", PATH)..]) by {
      assert "/"[1..] == "";
    }
    assert "" + (host + (":" + ("" + "/"))) == host + ":/";
    BadPortIsUndefined(scheme + ("://" + (host + ":/")), scheme, "", host, "", "/");
  }

  /** The first port that is too large, whatever the host. */
  lemma {:induction false} LargePort(scheme: string, host: string)
    requires IsScheme(scheme) && All(host, REG)
    ensures Parse(scheme + ("://" + (host + (":" + Numeral.Print(INT_LIMIT, Numeral.DEC))))).Undefined?
  {
    hide Numeral.Print, Numeral.Value, Numeral.IsNumeral, Len;
    var d := Numeral.Print(INT_LIMIT, Numeral.DEC);
    assert Numeral.Value(d, Numeral.DEC) == INT_LIMIT && All(d, DIGITS) by {
      Numeral.PrintIsRead(INT_LIMIT, Numeral.DEC);
      NumeralIsRun(d);
    }
    assert "" + (host + (":" + (d + ""))) == host + (":" + d);
    BadPortIsUndefined(scheme + ("://" + (host + (":" + d))), scheme, "", host, d, "");
  }

  lemma {:induction false} NumeralIsRun(d: string)
    requires Numeral.IsNumeral(d, Numeral.DEC)
    ensures All(d, DIGITS)
  {
    DigitsAreRun(d);
  }
}
