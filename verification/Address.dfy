/** The text form of IPv6 addresses, printed by address.cpp and read by section 2.2 of RFC 4291. */
module Address {
  import opened Bytes
  import opened Codec
  import Numeral

  datatype Option<+T> = None | Some(value: T)

  type Group = n: nat | n < 0x1_0000

  function BigEndian(hi: Byte, lo: Byte): Group {
    var h: nat, l: nat := hi, lo;
    256 * h + l
  }

  /** The eight groups of the sixteen bytes, in network order. */
  function Groups(b: seq<Byte>): (g: seq<Group>)
    requires |b| == 16
    ensures |g| == 8
  {
    seq(8, i requires 0 <= i < 8 => BigEndian(b[2 * i], b[2 * i + 1]))
  }

  /** byteswapOnLittleEndian of a 16-bit value. */
  function SwapOnLittle(v: nat, host: Endian): nat {
    if host.Little? then ByteSwap(v, 2) else v
  }

  /** Reading two bytes as a host integer and swapping on little-endian hosts gives the group on every host. */
  lemma {:induction false} GroupHostFree(b: seq<Byte>, host: Endian)
    requires |b| == 2
    ensures SwapOnLittle(FromMemory(b, host), host) == BigEndian(b[0], b[1])
    ensures FromMemory(b, host) == 0 <==> b[0] == 0 && b[1] == 0
  {
    LittleEndianRange(b);
    assert b == [b[0], b[1]] && Reverse(b) == [b[1], b[0]] by {
      assert b[1..] == [b[1]] && b[1..][1..] == [];
      assert Reverse(b[1..]) == Reverse([]) + [b[1]];
    }
    assert [b[0], b[1]][1..] == [b[1]] && [b[1], b[0]][1..] == [b[0]];
    assert FromLittleEndian([b[1]]) == b[1] && FromLittleEndian([b[0]]) == b[0];
    assert FromLittleEndian([b[0], b[1]]) == BigEndian(b[1], b[0]);
    assert FromLittleEndian([b[1], b[0]]) == BigEndian(b[0], b[1]);
  }

  // The intended text.

  function Hex(g: Group): (s: string)
    ensures s != ""
  {
    Numeral.Print(g, Numeral.HEX)
  }

  /** Groups with a colon between each two. */
  function Join(gs: seq<Group>): string {
    if gs == [] then ""
    else if |gs| == 1 then Hex(gs[0])
    else Join(gs[..|gs| - 1]) + ":" + Hex(gs[|gs| - 1])
  }

  /** Where the first run of zero groups starts; the end if there is none. */
  function RunStart(g: seq<Group>): (a: nat)
    ensures a <= |g|
    ensures forall i :: 0 <= i < a ==> g[i] != 0
    ensures a < |g| ==> g[a] == 0
  {
    if g == [] || g[0] == 0 then 0 else 1 + RunStart(g[1..])
  }

  /** How many groups are zero at the front. */
  function Zeros(g: seq<Group>): (n: nat)
    ensures n <= |g|
    ensures forall i :: 0 <= i < n ==> g[i] == 0
    ensures n < |g| ==> g[n] != 0
  {
    if g == [] || g[0] != 0 then 0 else 1 + Zeros(g[1..])
  }

  function RunEnd(g: seq<Group>): (b: nat)
    ensures RunStart(g) <= b <= |g|
    ensures forall i :: RunStart(g) <= i < b ==> g[i] == 0
    ensures b < |g| ==> g[b] != 0
  {
    RunStart(g) + Zeros(g[RunStart(g)..])
  }

  /** The first run of zero groups, however short, becomes a double colon. */
  function Text(g: seq<Group>): string {
    var a, b := RunStart(g), RunEnd(g);
    if a == |g| then Join(g) else Join(g[..a]) + "::" + Join(g[b..])
  }

  /** With brackets and port. */
  function Shown(g: seq<Group>, port: nat): string {
    "[" + Text(g) + "]:" + Numeral.Print(port, Numeral.DEC)
  }

  // The printer.

  lemma {:induction false} JoinSnoc(gs: seq<Group>, x: Group)
    ensures Join(gs + [x]) == if gs == [] then Hex(x) else Join(gs) + ":" + Hex(x)
  {
    assert (gs + [x])[..|gs|] == gs;
  }

  lemma {:induction false} JoinAfterRun(out: string, gs: seq<Group>, x: Group)
    ensures out + "::" + Join(gs + [x]) ==
              if gs == [] then out + ":" + ":" + Hex(x) else out + "::" + Join(gs) + ":" + Hex(x)
  {
    JoinSnoc(gs, x);
    assert out + "::" == out + ":" + ":";
  }

  /** What has been printed before group `i`. */
  function Printed(g: seq<Group>, i: nat): string
    requires i <= |g|
  {
    var a, b := RunStart(g), RunEnd(g);
    if i <= a then Join(g[..i])
    else if i <= b then Join(g[..a])
    else Join(g[..a]) + "::" + Join(g[b..i])
  }

  lemma {:induction false} PrintsNext(g: seq<Group>, i: nat)
    requires i < |g|
    ensures var b, out := RunEnd(g), Printed(g, i);
            Printed(g, i + 1) ==
              if g[i] == 0 && i < b then out
              else if RunStart(g) < b == i then out + ":" + ":" + Hex(g[i])
              else if i == 0 then out + Hex(g[i])
              else out + ":" + Hex(g[i])
  {
    hide Hex, RunStart, RunEnd;
    var a, b := RunStart(g), RunEnd(g);
    if i < a {
      assert g[..i + 1] == g[..i] + [g[i]];
      JoinSnoc(g[..i], g[i]);
    } else if b <= i {
      assert g[b..i + 1] == g[b..i] + [g[i]];
      JoinSnoc(g[b..i], g[i]);
      JoinAfterRun(Join(g[..a]), g[b..i], g[i]);
      assert a < b;
    }
  }

  /** The stored word `i` as the host reads it: zero exactly for a zero group, and the group once swapped. */
  method Word(bytes: seq<Byte>, i: nat, host: Endian) returns (v: nat)
    requires |bytes| == 16 && i < 8
    ensures v == 0 <==> Groups(bytes)[i] == 0
    ensures SwapOnLittle(v, host) == Groups(bytes)[i]
  {
    v := FromMemory(bytes[2 * i..2 * i + 2], host);
    GroupHostFree(bytes[2 * i..2 * i + 2], host);
  }

  /** The text that insert puts between the brackets. */
  method InsertGroups(bytes: seq<Byte>, host: Endian) returns (os: string)
    requires |bytes| == 16
    ensures os == Text(Groups(bytes))
  {
    ghost var g := Groups(bytes);
    hide Groups, SwapOnLittle, FromMemory, Join, Hex, RunStart, RunEnd, Text, Printed;
    os := "";
    PrintsNothing(g);
    var usedZeros := false;
    for i := 0 to 8
      invariant os == Printed(g, i)
      invariant usedZeros <==> RunStart(g) < RunEnd(g) < i
    {
      PrintsNext(g, i);
      RunAround(g, i);
      var v := Word(bytes, i, host);
      if v == 0 && !usedZeros {
        continue;
      }
      if i > 0 {
        var before := Word(bytes, i - 1, host);
        if before == 0 && !usedZeros {
          os := os + ":";
          usedZeros := true;
        }
        os := os + ":";
      }
      os := os + Hex(SwapOnLittle(v, host));
    }
    var last := Word(bytes, 7, host);
    TextFromPrinted(g);
    if !usedZeros && last == 0 {
      os := os + "::";
    }
  }

  /** insert, over the bytes of the address and of the port as they are stored. */
  method Insert(bytes: seq<Byte>, port: seq<Byte>, host: Endian) returns (os: string)
    requires |bytes| == 16 && |port| == 2
    ensures os == Shown(Groups(bytes), BigEndian(port[0], port[1]))
  {
    os := "[";
    var text := InsertGroups(bytes, host);
    os := os + text;
    GroupHostFree(port, host);
    os := os + "]:" + Numeral.Print(SwapOnLittle(FromMemory(port, host), host), Numeral.DEC);
  }

  lemma {:induction false} PrintsNothing(g: seq<Group>)
    ensures Printed(g, 0) == ""
  {
    assert g[..0] == [];
  }

  /** Where a group lies with respect to the run, read off the group and its predecessor. */
  lemma {:induction false} RunAround(g: seq<Group>, i: nat)
    requires i < |g|
    ensures g[i] == 0 ==> RunStart(g) <= i && (RunStart(g) < RunEnd(g) && (RunEnd(g) < i || i < RunEnd(g)))
    ensures g[i] != 0 ==> i < RunStart(g) || RunEnd(g) <= i
    ensures i > 0 && g[i] != 0 && !(RunStart(g) < RunEnd(g) < i) ==> (g[i - 1] == 0 <==> RunStart(g) < RunEnd(g) == i)
    ensures RunStart(g) == RunEnd(g) ==> RunStart(g) == |g|
  {
  }

  lemma {:induction false} TextFromPrinted(g: seq<Group>)
    requires |g| == 8
    ensures Text(g) == if RunStart(g) < RunEnd(g) == 8 then Printed(g, 8) + "::" else Printed(g, 8)
    ensures RunStart(g) < RunEnd(g) == 8 ==> g[7] == 0
    ensures RunStart(g) == 8 ==> g[7] != 0
  {
    assert g[..8] == g;
    assert Join(g[8..]) == "";
  }

  // The reader.

  /** The fields between separators. */
  function Split(s: string, c: char): (r: seq<string>)
    ensures |r| > 0
  {
    if s == "" then [""]
    else
      var r := Split(s[1..], c);
      if s[0] == c then [""] + r else [[s[0]] + r[0]] + r[1..]
  }

  function ReadGroup(s: string): Option<Group> {
    if 1 <= |s| <= 4 && Numeral.IsNumeral(s, Numeral.HEX) && Numeral.Value(s, Numeral.HEX) < 0x1_0000
    then Some(Numeral.Value(s, Numeral.HEX))
    else None
  }

  function ReadFields(fields: seq<string>): (r: Option<seq<Group>>)
    ensures r.Some? ==> |r.value| == |fields|
  {
    if fields == [] then Some([])
    else
      var n := |fields| - 1;
      var rest, last := ReadFields(fields[..n]), ReadGroup(fields[n]);
      if rest.Some? && last.Some? then Some(rest.value + [last.value]) else None
  }

  function ReadPart(s: string): Option<seq<Group>> {
    if s == "" then Some([]) else ReadFields(Split(s, ':'))
  }

  predicate DoubleAt(s: string, i: nat) {
    i + 1 < |s| && s[i] == ':' && s[i + 1] == ':'
  }

  /** The place of the first double colon, or the end. */
  function FindDouble(s: string): (p: nat)
    ensures p <= |s|
    ensures forall i :: 0 <= i < p ==> !DoubleAt(s, i)
    ensures p < |s| ==> DoubleAt(s, p)
  {
    if s == "" then 0
    else if DoubleAt(s, 0) then 0
    else
      var p := FindDouble(s[1..]);
      assert forall i :: 0 < i < |s| ==> DoubleAt(s, i) == DoubleAt(s[1..], i - 1);
      1 + p
  }

  /**
   * Section 2.2 of RFC 4291: eight groups of one to four hexadecimal digits, where one double colon
   * may stand for one or more groups of zeros.
   */
  function Read(s: string): Option<seq<Group>> {
    var p := FindDouble(s);
    if p == |s| then
      var all := ReadPart(s);
      if all.Some? && |all.value| == 8 then all else None
    else
      var left, right := ReadPart(s[..p]), ReadPart(s[p + 2..]);
      if left.Some? && right.Some? && |left.value| + |right.value| < 8 then
        Some(left.value + seq(8 - |left.value| - |right.value|, _ => 0) + right.value)
      else None
  }

  // Printing and reading.

  lemma {:induction false} SplitOne(t: string, c: char)
    requires c !in t
    ensures Split(t, c) == [t]
  {
    if t != "" {
      SplitOne(t[1..], c);
      assert t == [t[0]] + t[1..];
    }
  }

  lemma {:induction false} SplitSnoc(s: string, t: string, c: char)
    requires c !in t
    ensures Split(s + [c] + t, c) == Split(s, c) + [t]
  {
    var all := s + [c] + t;
    if s == "" {
      SplitOne(t, c);
      assert all[1..] == t;
    } else {
      assert all[1..] == s[1..] + [c] + t;
      SplitSnoc(s[1..], t, c);
    }
  }

  lemma {:induction false} HexReads(g: Group)
    ensures ReadGroup(Hex(g)) == Some(g)
    ensures ':' !in Hex(g) && ']' !in Hex(g)
  {
    Numeral.PrintIsRead(g, Numeral.HEX);
    assert Numeral.Power(Numeral.HEX, 4) == 0x1_0000 by {
      assert Numeral.Power(Numeral.HEX, 2) == 16 * Numeral.Power(Numeral.HEX, 1);
    }
    Numeral.PrintLength(g, Numeral.HEX, 4);
    assert forall i :: 0 <= i < |Hex(g)| ==> Numeral.DigitValue(Hex(g)[i]) < 16;
    assert Numeral.DigitValue(':') == 16 && Numeral.DigitValue(']') == 16;
  }

  lemma {:induction false} JoinReads(gs: seq<Group>)
    ensures ReadPart(Join(gs)) == Some(gs)
    ensures gs != [] ==> Join(gs) != ""
  {
    hide Hex, ReadGroup;
    if gs != [] {
      var n := |gs| - 1;
      HexReads(gs[n]);
      assert gs == gs[..n] + [gs[n]];
      JoinSnoc(gs[..n], gs[n]);
      JoinReads(gs[..n]);
      if n == 0 {
        SplitOne(Hex(gs[0]), ':');
        FieldsSnoc([], Hex(gs[0]), gs[0]);
      } else {
        var fields := Split(Join(gs[..n]), ':');
        SplitSnoc(Join(gs[..n]), Hex(gs[n]), ':');
        FieldsSnoc(fields, Hex(gs[n]), gs[n]);
      }
    }
  }

  lemma {:induction false} FieldsSnoc(fields: seq<string>, field: string, g: Group)
    requires ReadGroup(field) == Some(g)
    ensures ReadFields(fields + [field]) ==
              if ReadFields(fields).None? then None else Some(ReadFields(fields).value + [g])
  {
    assert (fields + [field])[..|fields|] == fields;
  }

  /** No double colon, no colon at either end, and no bracket. */
  predicate Plain(s: string) {
    && (forall i :: 0 <= i < |s| ==> !DoubleAt(s, i))
    && (s != "" ==> s[0] != ':' && s[|s| - 1] != ':') && ']' !in s
  }

  lemma {:induction false} JoinIsPlain(gs: seq<Group>)
    ensures Plain(Join(gs))
  {
    if gs != [] {
      var n := |gs| - 1;
      HexReads(gs[n]);
      JoinIsPlain(gs[..n]);
      JoinReads(gs[..n]);
      var l, h := Join(gs[..n]), Hex(gs[n]);
      if n > 0 {
        var s := Join(gs);
        assert s == l + ":" + h;
        forall i | 0 <= i < |s| ensures !DoubleAt(s, i) {
          if i + 1 < |l| {
            assert !DoubleAt(l, i);
          } else if |l| < i {
            assert s[i] == h[i - |l| - 1];
          }
        }
      }
    }
  }

  /** Double colons in the text: exactly one where a run was left out, otherwise none. */
  lemma {:induction false} DoublesInText(g: seq<Group>)
    requires |g| == 8
    ensures var s, a := Text(g), RunStart(g);
            forall i: nat :: DoubleAt(s, i) <==> a < 8 && i == |Join(g[..a])|
    ensures ']' !in Text(g)
  {
    var s, a, b := Text(g), RunStart(g), RunEnd(g);
    JoinIsPlain(g);
    JoinIsPlain(g[..a]);
    JoinIsPlain(g[b..]);
    var l, r := Join(g[..a]), Join(g[b..]);
    if a < 8 {
      forall i: nat ensures DoubleAt(s, i) <==> i == |l| {
        if i + 1 < |l| {
          assert !DoubleAt(l, i);
        } else if i > |l| + 1 && i + 1 < |s| {
          assert !DoubleAt(r, i - |l| - 2);
        }
      }
    }
  }

  /** The text has at most one double colon. */
  lemma {:induction false} AtMostOneDouble(g: seq<Group>, i: nat, j: nat)
    requires |g| == 8 && DoubleAt(Text(g), i) && DoubleAt(Text(g), j)
    ensures i == j
  {
    DoublesInText(g);
  }

  lemma {:induction false} WithRun(g: seq<Group>)
    requires RunStart(g) < |g|
    ensures RunStart(g) < RunEnd(g)
    ensures g == g[..RunStart(g)] + seq(RunEnd(g) - RunStart(g), _ => 0) + g[RunEnd(g)..]
  {
  }

  /** Reading what was printed gives the eight groups back, for every address. */
  lemma {:induction false} ReadsBack(g: seq<Group>)
    requires |g| == 8
    ensures Read(Text(g)) == Some(g)
  {
    hide Join, ReadPart, RunStart, RunEnd, FindDouble;
    var s, a, b := Text(g), RunStart(g), RunEnd(g);
    var p := FindDouble(s);
    DoublesInText(g);
    if a == 8 {
      JoinReads(g);
    } else {
      var l, r := Join(g[..a]), Join(g[b..]);
      assert DoubleAt(s, |l|);
      assert p == |l|;
      assert s[..p] == l && s[p + 2..] == r;
      JoinReads(g[..a]);
      JoinReads(g[b..]);
      WithRun(g);
      assert 8 - |g[..a]| - |g[b..]| == b - a;
    }
  }

  /** Two addresses with ports that print the same are the same. */
  lemma {:induction false} ShownIsInjective(g: seq<Group>, h: seq<Group>, p: nat, q: nat)
    requires |g| == 8 && |h| == 8 && Shown(g, p) == Shown(h, q)
    ensures g == h && p == q
  {
    hide Text;
    DoublesInText(g);
    DoublesInText(h);
    var s, m, n := Shown(g, p), |Text(g)| + 1, |Text(h)| + 1;
    assert s[m] == ']' && s[n] == ']';
    assert forall i :: 1 <= i < m ==> s[i] == Text(g)[i - 1];
    assert forall i :: 1 <= i < n ==> s[i] == Text(h)[i - 1];
    assert m == n;
    assert Text(g) == s[1..m] == Text(h);
    assert Numeral.Print(p, Numeral.DEC) == s[m + 2..] == Numeral.Print(q, Numeral.DEC);
    ReadsBack(g);
    ReadsBack(h);
    Numeral.PrintIsRead(p, Numeral.DEC);
    Numeral.PrintIsRead(q, Numeral.DEC);
  }
}
