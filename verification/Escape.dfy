/** Percent escapes of uri_query.cpp (section 2.1 of RFC 3986). */
module Escape {
  datatype Option<+T> = None | Some(value: T)

  /** One byte of a std::string. */
  type Octet = c: char | c as int < 256 witness 'a'

  const HEX := "0123456789ABCDEF"

  const EXCEPTIONS := "\"%<>[\\]^_`{|}"

  predicate Escaped(c: Octet) {
    c as int / 128 % 2 == 1 || c in EXCEPTIONS
  }

  function High(c: Octet): (n: nat)
    ensures n < 16
  {
    c as int / 16 % 16
  }

  function Low(c: Octet): (n: nat)
    ensures n < 16
  {
    c as int % 16
  }

  /** The text that stands for one byte. */
  function EncodeOne(c: Octet): (s: seq<Octet>)
    ensures 1 <= |s| <= 3
  {
    if Escaped(c) then ['%', HEX[High(c)], HEX[Low(c)]] else [c]
  }

  function Encode(s: seq<Octet>): seq<Octet> {
    if s == [] then [] else EncodeOne(s[0]) + Encode(s[1..])
  }

  /** NUM_2_HEX's search: a digit that is not there counts as sixteen. */
  function Index(c: Octet): (n: nat)
    ensures n <= 16
    ensures n < 16 ==> HEX[n] == c
  {
    if '0' <= c <= '9' then c as int - '0' as int
    else if 'A' <= c <= 'F' then c as int - 'A' as int + 10
    else 16
  }

  lemma {:induction false} IndexIsFind(c: Octet)
    ensures Index(c) == 16 <==> c !in HEX
    ensures forall i :: 0 <= i < 16 && HEX[i] == c ==> Index(c) == i
  {
  }

  /** NUM_2_HEX, in unsigned char arithmetic. */
  function Unhex(h: Octet, l: Octet): Octet {
    ((Index(h) * 16 + Index(l)) % 256) as char
  }

  /** Decode: none where the code throws, for an escape cut short. */
  function Decode(s: seq<Octet>): Option<seq<Octet>> {
    if s == [] then Some([])
    else if s[0] == '%' then
      if |s| < 3 then None
      else
        var rest := Decode(s[3..]);
        if rest.None? then None else Some([Unhex(s[1], s[2])] + rest.value)
    else
      var rest := Decode(s[1..]);
      if rest.None? then None else Some([s[0]] + rest.value)
  }

  // Encoding and decoding.

  lemma {:induction false} Nibbles(c: Octet)
    ensures High(c) * 16 + Low(c) == c as int
  {
  }

  lemma {:induction false} OneReads(c: Octet)
    requires Escaped(c)
    ensures Unhex(HEX[High(c)], HEX[Low(c)]) == c
  {
    hide High, Low, Escaped;
    IndexIsFind(HEX[High(c)]);
    IndexIsFind(HEX[Low(c)]);
    Nibbles(c);
  }

  lemma {:induction false} DecodeAfterOne(c: Octet, t: seq<Octet>)
    ensures Decode(EncodeOne(c) + t) == if Decode(t).None? then None else Some([c] + Decode(t).value)
  {
    var s := EncodeOne(c) + t;
    hide Unhex, High, Low;
    if Escaped(c) {
      OneReads(c);
      assert s[3..] == t;
    } else {
      assert s[1..] == t && s[0] == c;
    }
  }

  /** Decoding what was encoded never throws and gives every byte string back. */
  lemma {:induction false} DecodeEncode(s: seq<Octet>)
    ensures Decode(Encode(s)) == Some(s)
  {
    if s != [] {
      DecodeEncode(s[1..]);
      DecodeAfterOne(s[0], Encode(s[1..]));
      assert s == [s[0]] + s[1..];
    }
  }

  function Count(s: seq<Octet>): (n: nat)
    ensures n <= |s|
  {
    if s == [] then 0 else (if Escaped(s[0]) then 1 else 0) + Count(s[1..])
  }

  /** Two more bytes for each one escaped, so at most three times as many. */
  lemma {:induction false} EncodedLength(s: seq<Octet>)
    ensures |Encode(s)| == |s| + 2 * Count(s) <= 3 * |s|
  {
    if s != [] {
      EncodedLength(s[1..]);
    }
  }

  /** What encoding leaves: no byte that it escapes, but for the percent signs of the escapes. */
  lemma {:induction false} EncodedIsPlain(s: seq<Octet>, i: nat)
    requires i < |Encode(s)|
    ensures Encode(s)[i] == '%' || !Escaped(Encode(s)[i])
  {
    var one := EncodeOne(s[0]);
    if i < |one| {
      assert forall k :: 0 <= k < 16 ==> HEX[k] as int < 128 && HEX[k] !in EXCEPTIONS;
    } else {
      EncodedIsPlain(s[1..], i - |one|);
    }
  }

  // Where decoding differs from section 2.1 of RFC 3986.

  predicate LowerHex(c: Octet) {
    'a' <= c <= 'f'
  }

  predicate HexDigit(c: Octet) {
    c in HEX || LowerHex(c)
  }

  /** The value of a digit in either case. */
  function DigitValue(c: Octet): nat
    requires HexDigit(c)
  {
    if LowerHex(c) then c as int - 'a' as int + 10 else Index(c)
  }

  /** An escape is decoded to the byte it stands for if and only if neither of its digits is lower-case. */
  lemma {:induction false} UpperCaseOnly(h: Octet, l: Octet)
    requires HexDigit(h) && HexDigit(l)
    ensures Unhex(h, l) as int == 16 * DigitValue(h) + DigitValue(l) <==> !LowerHex(h) && !LowerHex(l)
  {
    IndexIsFind(h);
    IndexIsFind(l);
  }

  /** The positions at which a scan of `s` finds the percent sign of an escape. */
  function Starts(s: seq<Octet>, at: nat): (r: seq<nat>)
    requires at <= |s|
    decreases |s| - at
  {
    if at == |s| then []
    else if s[at] != '%' then Starts(s, at + 1)
    else [at] + if at + 3 <= |s| then Starts(s, at + 3) else []
  }

  /** Decoding throws exactly when the scan meets a percent sign with fewer than two bytes behind it. */
  lemma {:induction false} ThrowsIff(s: seq<Octet>, at: nat)
    requires at <= |s|
    ensures Decode(s[at..]).None? <==> exists k :: 0 <= k < |Starts(s, at)| && Starts(s, at)[k] + 3 > |s|
    decreases |s| - at
  {
    if at < |s| {
      if s[at] != '%' {
        assert s[at..][1..] == s[at + 1..];
        ThrowsIff(s, at + 1);
      } else if at + 3 <= |s| {
        assert s[at..][3..] == s[at + 3..];
        ThrowsIff(s, at + 3);
        var r := Starts(s, at + 3);
        forall k | 0 <= k < |r| ensures Starts(s, at)[k + 1] == r[k] {
        }
      } else {
        assert Starts(s, at)[0] + 3 > |s|;
      }
    }
  }

  // The loops.

  lemma {:induction false} EncodeSnoc(s: seq<Octet>, c: Octet)
    ensures Encode(s + [c]) == Encode(s) + EncodeOne(c)
  {
    if s == [] {
      assert [c][1..] == [] && s + [c] == [c];
    } else {
      assert (s + [c])[1..] == s[1..] + [c];
      EncodeSnoc(s[1..], c);
    }
  }

  method EncodeUrl(url: seq<Octet>) returns (ret: seq<Octet>)
    ensures ret == Encode(url)
  {
    ret := [];
    for it := 0 to |url|
      invariant ret == Encode(url[..it])
    {
      var c := url[it];
      EncodeSnoc(url[..it], c);
      assert url[..it + 1] == url[..it] + [c];
      if c as int / 128 % 2 == 1 || c in EXCEPTIONS {
        ret := ret + ['%'] + [HEX[High(c)]] + [HEX[Low(c)]];
      } else {
        ret := ret + [c];
      }
    }
    assert url[..|url|] == url;
  }

  /** What is decoded so far and what the rest decodes to make up the whole. */
  predicate Continues(out: seq<Octet>, rest: Option<seq<Octet>>, all: Option<seq<Octet>>) {
    (rest.None? <==> all.None?) && (rest.Some? ==> all.value == out + rest.value)
  }

  lemma {:induction false} ContinuesNext(url: seq<Octet>, it: nat, out: seq<Octet>)
    requires it < |url| && Continues(out, Decode(url[it..]), Decode(url))
    ensures url[it] == '%' && it + 3 > |url| ==> Decode(url) == None
    ensures url[it] == '%' && it + 3 <= |url| ==>
              Continues(out + [Unhex(url[it + 1], url[it + 2])], Decode(url[it + 3..]), Decode(url))
    ensures url[it] != '%' ==> Continues(out + [url[it]], Decode(url[it + 1..]), Decode(url))
  {
    hide Unhex;
    var s := url[it..];
    assert s[1..] == url[it + 1..];
    if it + 3 <= |url| {
      assert s[3..] == url[it + 3..];
    }
  }

  lemma {:induction false} ContinuesEnds(url: seq<Octet>, out: seq<Octet>)
    requires Continues(out, Decode(url[|url|..]), Decode(url))
    ensures Decode(url) == Some(out)
  {
    assert url[|url|..] == [];
    assert Decode(url).value == out;
  }

  /** None where the code throws; the byte it pushes just before, from past the end, is lost with the exception. */
  method DecodeUrl(url: seq<Octet>) returns (ret: Option<seq<Octet>>)
    ensures ret == Decode(url)
  {
    hide Decode, Unhex, Continues;
    var out: seq<Octet> := [];
    var it := 0;
    assert Continues(out, Decode(url[it..]), Decode(url)) by {
      assert url[0..] == url;
      ContinuesFromStart(Decode(url));
    }
    while it < |url|
      invariant it <= |url|
      invariant Continues(out, Decode(url[it..]), Decode(url))
    {
      ContinuesNext(url, it, out);
      if url[it] == '%' {
        it := it + 1;
        if it == |url| {
          return None;
        }
        it := it + 1;
        if it == |url| {
          return None;
        }
        out := out + [Unhex(url[it - 1], url[it])];
      } else {
        out := out + [url[it]];
      }
      it := it + 1;
    }
    ContinuesEnds(url, out);
    ret := Some(out);
  }

  lemma {:induction false} ContinuesFromStart(all: Option<seq<Octet>>)
    ensures Continues([], all, all)
  {
  }
}
