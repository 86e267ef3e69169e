/** Create of uri.rl as the single pass with a moving mark that it is, against the grammar of Uri. */
module UriScanner {
  import opened Uri
  import Numeral

  datatype Mark = Null | At(place: nat)

  lemma {:induction false} LenSteps(s: string, p: nat, k: Class)
    requires p < |s|
    ensures In(s[p], k) ==> Len(s[p..], k) == 1 + Len(s[p + 1..], k)
    ensures !In(s[p], k) && EscapeAt(s[p..], k) ==> p + 3 <= |s| && Len(s[p..], k) == 3 + Len(s[p + 3..], k)
    ensures !In(s[p], k) && !EscapeAt(s[p..], k) ==> Len(s[p..], k) == 0
  {
    assert s[p..][1..] == s[p + 1..];
    if p + 3 <= |s| {
      assert s[p..][3..] == s[p + 3..];
    }
  }

  /** Moves over a run of the class. */
  method Scan(s: string, from: nat, k: Class) returns (p: nat)
    requires from <= |s|
    ensures p == from + Len(s[from..], k) <= |s|
  {
    hide Len;
    p := from;
    var more := true;
    while more
      invariant from <= p <= |s| && from + Len(s[from..], k) == p + Len(s[p..], k)
      invariant !more ==> Len(s[p..], k) == 0
      decreases |s| - p, more
    {
      if p == |s| {
        EmptyLen(s[p..], k);
        more := false;
      } else {
        LenSteps(s, p, k);
        if In(s[p], k) {
          p := p + 1;
        } else if EscapeAt(s[p..], k) {
          p := p + 3;
        } else {
          more := false;
        }
      }
    }
  }

  lemma {:induction false} EmptyLen(r: string, k: Class)
    requires r == ""
    ensures Len(r, k) == 0
  {
  }

  /** From the query on. */
  method ScanQuery(s: string, from: nat, uri: Uri) returns (r: Created)
    requires from <= |s|
    ensures r == ParseQuery(s[from..], uri)
  {
    hide Len;
    var p, u := from, uri;
    if p < |s| && s[p] == '?' {
      assert s[p..][1..] == s[p + 1..];
      var mark := p + 1;
      p := Scan(s, mark, QUERY);
      u := u.(query := s[mark..p]);
      assert s[from..][1..1 + (p - mark)] == s[mark..p];
      assert s[from..][1 + (p - mark)..] == s[p..];
    }
    r := ScanFragment(s, p, u);
  }

  method ScanFragment(s: string, from: nat, uri: Uri) returns (r: Created)
    requires from <= |s|
    ensures r == ParseFragment(s[from..], uri)
  {
    hide Len;
    r := Elsewhere;
    if from == |s| {
      r := Parsed(uri);
    } else if s[from] == '#' {
      assert s[from..][1..] == s[from + 1..];
      var p := Scan(s, from + 1, QUERY);
      if p == |s| {
        r := Parsed(uri.(fragment := s[from + 1..p]));
      }
    }
  }

  /** From the path on, the mark where the actions before it have left it. */
  method ScanPath(s: string, from: nat, uri: Uri, mark: Mark) returns (r: Created)
    requires from <= |s| && (mark == Null || mark == At(from))
    ensures r == ParsePath(s[from..], uri, mark != Null)
    ensures r.Undefined? <==> mark == Null && PathEnds(s[from..])
  {
    hide Len, ParseQuery;
    PathUndefinedIff(s[from..], uri, mark != Null);
    var p := from;
    if p < |s| && s[p] == '/' {
      p := Scan(s, p, PATH);
    }
    assert s[from..][p - from..] == s[p..] && s[from..][..p - from] == s[from..p];
    if p < |s| && s[p] != '?' && s[p] != '#' {
      r := Elsewhere;
    } else if mark == Null {
      r := Undefined;
    } else {
      r := ScanQuery(s, p, uri.(path := s[mark.place..p]));
    }
  }

  /** From the end of the port's digits on. */
  method ScanPort(s: string, colon: nat, end: nat, uri: Uri) returns (r: Created)
    requires colon < end <= |s| && s[colon] == ':' && end == colon + 1 + Len(s[colon + 1..], DIGITS)
    ensures r == ParsePort(s[colon..], uri)
  {
    hide Len, ParsePath, Numeral.Value;
    assert s[colon..][1..] == s[colon + 1..];
    assert s[colon..][1..end - colon] == s[colon + 1..end] && s[colon..][end - colon..] == s[end..];
    if end == colon + 1 {
      r := ScanPath(s, end, uri, Null);
    } else if end < |s| && s[end] != '/' && s[end] != '?' && s[end] != '#' {
      r := Elsewhere;
    } else {
      var v := Numeral.Value(s[colon + 1..end], Numeral.DEC);
      if v >= INT_LIMIT {
        r := Undefined;
      } else {
        r := ScanPath(s, end, uri.(port := v), At(end));
      }
    }
  }

  /** The host behind a userinfo, and what follows. */
  method ScanHost(s: string, from: nat, uri: Uri) returns (r: Created)
    requires from <= |s|
    ensures r == ParseHost(s[from..], uri)
  {
    hide Len, ParsePath, ParsePort;
    var mark := from;
    var p := Scan(s, mark, REG);
    var u := uri.(host := s[mark..p]);
    assert s[from..][..p - from] == s[from..p] && s[from..][p - from..] == s[p..];
    if p < |s| && s[p] == ':' {
      var end := Scan(s, p + 1, DIGITS);
      r := ScanPort(s, p, end, u);
    } else {
      NoPort(s[p..], u);
      r := ScanPath(s, p, u, At(p));
    }
  }

  lemma {:induction false} NoPort(r: string, u: Uri)
    requires r == "" || r[0] != ':'
    ensures ParsePort(r, u) == ParsePath(r, u, true)
  {
  }

  // The authority, where userinfo and host with port are scanned at the same time.

  /** The first colon has not been seen: all of it may be userinfo or host. */
  predicate BeforeColon(s: string, from: nat, p: nat) {
    && from <= p <= |s| && ':' !in s[from..p]
    && Len(s[from..], REG) == p - from + Len(s[p..], REG)
  }

  /** It has been seen at `colon`; `port` says whether only digits have followed it. */
  predicate AfterColon(s: string, from: nat, p: nat, colon: nat, port: bool) {
    && from <= colon < p <= |s| && ':' !in s[from..colon] && s[colon] == ':'
    && Len(s[from..], REG) == colon - from
    && var n := Len(s[colon + 1..], DIGITS);
       if port then n == p - colon - 1 + Len(s[p..], DIGITS)
       else colon + 1 + n < p && s[colon + 1 + n] !in "/?#"
  }

  /** Where the mark stands: behind the colon if a digit is there, otherwise at the start. */
  function MarkOf(s: string, from: nat, p: nat, colon: nat): nat
    requires colon < p <= |s|
  {
    if colon + 1 < p && Digit(s[colon + 1]) then colon + 1 else from
  }

  lemma {:induction false} ColonSeen(s: string, from: nat, p: nat)
    requires BeforeColon(s, from, p) && p < |s| && s[p] == ':'
    ensures AfterColon(s, from, p + 1, p, true)
  {
    LenSteps(s, p, REG);
  }

  lemma {:induction false} HostGoesOn(s: string, from: nat, p: nat, q: nat)
    requires BeforeColon(s, from, p) && p < |s| && s[p] != ':'
    requires (In(s[p], REG) && q == p + 1) || (!In(s[p], REG) && EscapeAt(s[p..], REG) && q == p + 3)
    ensures BeforeColon(s, from, q)
  {
    LenSteps(s, p, REG);
  }

  lemma {:induction false} UserinfoGoesOn(s: string, from: nat, p: nat, q: nat, colon: nat, port: bool)
    requires AfterColon(s, from, p, colon, port) && p < |s| && s[p] !in "/?#" && p < q <= |s|
    requires Digit(s[p]) ==> q == p + 1
    ensures AfterColon(s, from, q, colon, port && Digit(s[p]))
  {
    LenSteps(s, p, DIGITS);
  }

  lemma {:induction false} ColonOf(s: string, from: nat, end: nat, colon: nat)
    requires from <= colon < end <= |s| && ':' !in s[from..colon] && s[colon] == ':'
    ensures Colon(s[from..end]) == colon - from
  {
    var t := s[from..end];
    assert forall i :: 0 <= i < colon - from ==> t[i] == s[from..colon][i];
    ColonIs(t, colon - from);
  }

  lemma {:induction false} ColonIs(t: string, n: nat)
    requires n < |t| && t[n] == ':' && forall i :: 0 <= i < n ==> t[i] != ':'
    ensures Colon(t) == n
  {
    if n > 0 {
      ColonIs(t[1..], n - 1);
    }
  }

  lemma {:induction false} NoColonOf(t: string)
    requires ':' !in t
    ensures KeptUserinfo(t) == t
  {
  }

  method ScanAuthority(s: string, from: nat, uri: Uri) returns (r: Created)
    requires from <= |s|
    ensures r == ParseAuthority(s[from..], uri)
  {
    hide Len, BeforeColon, AfterColon, ParseAuthority, ParseHost, ParsePort, ParsePath, KeptUserinfo;
    var p: nat, mark: nat, u := from, from, uri;
    var seen, port := false, false;
    var colon: nat := from;
    assert BeforeColon(s, from, p) by {
      StartsBeforeColon(s, from);
    }
    var more := true;
    while more
      invariant from <= p <= |s| && Len(s[from..], USER) == p - from + Len(s[p..], USER)
      invariant !seen ==> BeforeColon(s, from, p) && mark == from && u == uri
      invariant seen ==> AfterColon(s, from, p, colon, port) && from <= colon < p
      invariant seen ==> s[colon] == ':' && u == uri.(host := s[from..colon])
      invariant seen ==> mark == MarkOf(s, from, p, colon)
      invariant !more ==> Len(s[p..], USER) == 0 && (p == |s| || (!In(s[p], USER) && !EscapeAt(s[p..], USER)))
      decreases |s| - p, more
    {
      if p == |s| {
        EmptyLen(s[p..], USER);
        more := false;
      } else {
        LenSteps(s, p, USER);
        if s[p] == ':' && !seen {
          ColonSeen(s, from, p);
          u := u.(host := s[mark..p]);
          seen, colon, port := true, p, true;
          p := p + 1;
        } else if In(s[p], USER) {
          if !seen {
            HostGoesOn(s, from, p, p + 1);
          } else {
            UserinfoGoesOn(s, from, p, p + 1, colon, port);
            if p == colon + 1 && Digit(s[p]) {
              mark := p;
            }
            port := port && Digit(s[p]);
          }
          p := p + 1;
        } else if EscapeAt(s[p..], USER) {
          if !seen {
            HostGoesOn(s, from, p, p + 3);
          } else {
            UserinfoGoesOn(s, from, p, p + 3, colon, port);
            port := false;
          }
          p := p + 3;
        } else {
          more := false;
        }
      }
    }
    r := LeaveAuthority(s, from, p, mark, uri, u, seen, colon, port);
  }

  /** Where neither userinfo nor host goes on. */
  method LeaveAuthority(s: string, from: nat, p: nat, mark: nat, uri: Uri, u0: Uri, seen: bool, colon: nat, port: bool)
    returns (r: Created)
    requires from <= p <= |s| && Len(s[from..], USER) == p - from
    requires if seen then AfterColon(s, from, p, colon, port) && from <= colon < p && mark == MarkOf(s, from, p, colon)
             else BeforeColon(s, from, p) && mark == from
    requires if seen then s[colon] == ':' && u0 == uri.(host := s[from..colon]) else u0 == uri
    requires p == |s| || (!In(s[p], USER) && !EscapeAt(s[p..], USER))
    ensures r == ParseAuthority(s[from..], uri)
  {
    hide Len, BeforeColon, AfterColon, MarkOf, ParseHost, ParsePort, ParsePath, KeptUserinfo;
    assert s[from..][p - from..] == s[p..];
    assert s[from..][..p - from] == s[from..p];
    var u := u0;
    if p < |s| && s[p] == '@' {
      Kept(s, from, p, seen, colon, port, mark);
      u := uri.(userinfo := s[mark..p]);
      assert s[from..][p - from + 1..] == s[p + 1..];
      r := ScanHost(s, p + 1, u);  // saves the host again
    } else if !seen {
      u := u.(host := s[mark..p]);
      HostWithoutPort(s, from, p, uri);
      r := ScanPath(s, p, u, At(p));
    } else {
      HostBeforePort(s, from, p, colon, port, uri);
      if port {
        r := ScanPort(s, colon, p, u);
      } else {
        r := Elsewhere;
      }
    }
  }

  lemma {:induction false} StartsBeforeColon(s: string, from: nat)
    requires from <= |s|
    ensures BeforeColon(s, from, from)
  {
  }

  /** What the mark has kept of the userinfo. */
  lemma {:induction false} Kept(s: string, from: nat, p: nat, seen: bool, colon: nat, port: bool, mark: nat)
    requires from <= p <= |s|
    requires if seen then AfterColon(s, from, p, colon, port) && from <= colon < p && mark == MarkOf(s, from, p, colon)
             else BeforeColon(s, from, p) && mark == from
    ensures mark <= p && s[mark..p] == KeptUserinfo(s[from..p])
  {
    if seen {
      ColonOf(s, from, p, colon);
      assert s[from..p][colon - from + 1..] == s[colon + 1..p];
    } else {
      NoColonOf(s[from..p]);
    }
  }

  lemma {:induction false} HostWithoutPort(s: string, from: nat, p: nat, u: Uri)
    requires BeforeColon(s, from, p) && (p == |s| || (!In(s[p], USER) && !EscapeAt(s[p..], USER)))
    ensures ParseHost(s[from..], u) == ParsePath(s[p..], u.(host := s[from..p]), true)
  {
    hide Len, ParsePath;
    assert Len(s[p..], REG) == 0 by {
      if p < |s| {
        LenSteps(s, p, REG);
      } else {
        EmptyLen(s[p..], REG);
      }
    }
    assert s[from..][..p - from] == s[from..p] && s[from..][p - from..] == s[p..];
  }

  lemma {:induction false} HostBeforePort(s: string, from: nat, p: nat, colon: nat, port: bool, u: Uri)
    requires AfterColon(s, from, p, colon, port) && (p == |s| || (!In(s[p], USER) && !EscapeAt(s[p..], USER)))
    ensures var v := u.(host := s[from..colon]);
            && ParseHost(s[from..], u) == ParsePort(s[colon..], v)
            && (if port then p == colon + 1 + Len(s[colon + 1..], DIGITS) else ParsePort(s[colon..], v) == Elsewhere)
  {
    hide Len, ParseQuery;
    var v, t := u.(host := s[from..colon]), s[colon..];
    assert s[from..][..colon - from] == s[from..colon] && s[from..][colon - from..] == t;
    if port {
      if p < |s| {
        LenSteps(s, p, DIGITS);
      } else {
        EmptyLen(s[p..], DIGITS);
      }
    } else {
      var n := Len(s[colon + 1..], DIGITS);
      assert t[1..] == s[colon + 1..] && t[1 + n..] == s[colon + 1 + n..];
      assert t[1 + n] == s[colon + 1 + n];
    }
  }

  lemma {:induction false} SchemeSteps(s: string, p: nat)
    requires p < |s|
    ensures SchemeLen(s[p..]) == if SchemeChar(s[p]) then 1 + SchemeLen(s[p + 1..]) else 0
  {
    assert s[p..][1..] == s[p + 1..];
  }

  method Create(s: string) returns (r: Created)
    ensures r == Parse(s)
  {
    hide SchemeLen, ParseAuthority;
    r := Elsewhere;
    var p := 0;
    assert s[0..] == s;
    while p < |s| && SchemeChar(s[p])
      invariant p <= |s| && SchemeLen(s) == p + SchemeLen(s[p..])
    {
      SchemeSteps(s, p);
      p := p + 1;
    }
    if p < |s| {
      SchemeSteps(s, p);
    }
    assert p == |s| || SchemeLen(s[p..]) == 0;
    if p > 0 && Alpha(s[0]) && p + 3 <= |s| && s[p..p + 3] == "://" {
      r := ScanAuthority(s, p + 3, BLANK.(scheme := s[0..p]));
      assert s[0..p] == s[..p];
    }
  }
}
