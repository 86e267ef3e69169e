/** Query strings of uri_query.cpp: splitting, the parameter map, dumping. */
module UriQuery {
  datatype Pair = Pair(key: string, value: string)

  /** The place of the first `c`, or the end. */
  function Find(s: string, c: char): (n: nat)
    ensures n <= |s|
    ensures forall i :: 0 <= i < n ==> s[i] != c
    ensures n < |s| ==> s[n] == c
  {
    if s == "" || s[0] == c then 0 else 1 + Find(s[1..], c)
  }

  lemma {:induction false} FindIs(s: string, c: char, n: nat)
    requires n <= |s| && (forall i :: 0 <= i < n ==> s[i] != c) && (n < |s| ==> s[n] == c)
    ensures Find(s, c) == n
  {
    if n > 0 {
      FindIs(s[1..], c, n - 1);
    }
  }

  /** What repeated getline gives: the fields, but no empty field at the end. */
  function Split(s: string, d: char): seq<string>
    decreases |s|
  {
    if s == "" then []
    else
      var n := Find(s, d);
      if n == |s| then [s] else [s[..n]] + Split(s[n + 1..], d)
  }

  lemma {:induction false} SplitStep(s: string, d: char, n: nat)
    requires s != "" && n <= |s| && (forall i :: 0 <= i < n ==> s[i] != d) && (n < |s| ==> s[n] == d)
    ensures Split(s, d) == if n == |s| then [s] else [s[..n]] + Split(s[n + 1..], d)
  {
    FindIs(s, d, n);
  }

  function ParseComponent(component: string): Pair {
    var n := Find(component, '=');
    var key := component[..n];
    if key == component then Pair(key, "") else Pair(key, component[n + 1..])
  }

  /** std::string's order: byte by byte, a prefix first. */
  predicate Less(a: string, b: string) {
    if b == "" then false
    else if a == "" then true
    else if a[0] != b[0] then a[0] < b[0]
    else Less(a[1..], b[1..])
  }

  lemma {:induction false} LessIsStrictTotal(a: string, b: string)
    ensures !(Less(a, b) && Less(b, a)) && !Less(a, a)
    ensures Less(a, b) || Less(b, a) || a == b
    decreases |a| + |b|
  {
    if a != "" {
      LessIsStrictTotal(a[1..], if b != "" then b[1..] else "");
      assert a == [a[0]] + a[1..];
      if b != "" {
        assert b == [b[0]] + b[1..];
      }
    }
  }

  lemma {:induction false} LessIsTransitive(a: string, b: string, c: string)
    requires Less(a, b) && Less(b, c)
    ensures Less(a, c)
  {
    if a != "" && a[0] == b[0] && b[0] == c[0] {
      LessIsTransitive(a[1..], b[1..], c[1..]);
    }
  }

  /** The parameters in the order in which the map is walked. */
  predicate Sorted(ps: seq<Pair>) {
    forall i, j :: 0 <= i < j < |ps| ==> Less(ps[i].key, ps[j].key)
  }

  /** emplace: nothing happens when the key is there. */
  function Emplace(ps: seq<Pair>, p: Pair): seq<Pair> {
    if ps == [] || Less(p.key, ps[0].key) then [p] + ps
    else if ps[0].key == p.key then ps
    else [ps[0]] + Emplace(ps[1..], p)
  }

  function EmplaceAll(ps: seq<Pair>, components: seq<string>): seq<Pair>
    decreases |components|
  {
    if components == [] then ps else EmplaceAll(Emplace(ps, ParseComponent(components[0])), components[1..])
  }

  /** parse: `d` is the first character of the delimiter. */
  function Parse(raw: string, d: char): seq<Pair> {
    EmplaceAll([], Split(raw, d))
  }

  function Component(p: Pair): string {
    p.key + "=" + p.value
  }

  /** dump, which always separates by an ampersand. */
  function Dump(ps: seq<Pair>): string {
    if ps == [] then ""
    else if |ps| == 1 then Component(ps[0])
    else Component(ps[0]) + "&" + Dump(ps[1..])
  }

  // First wins.

  function Lookup(ps: seq<Pair>, key: string): (v: seq<string>)
    ensures |v| <= 1
  {
    if ps == [] then [] else if ps[0].key == key then [ps[0].value] else Lookup(ps[1..], key)
  }

  lemma {:induction false} EmplaceLookup(ps: seq<Pair>, p: Pair, key: string)
    requires Sorted(ps)
    ensures Sorted(Emplace(ps, p))
    ensures Lookup(Emplace(ps, p), key) == if Lookup(ps, key) == [] && key == p.key then [p.value] else Lookup(ps, key)
    ensures forall q :: q in Emplace(ps, p) ==> q in ps || q == p
    ensures forall q :: q in ps ==> q in Emplace(ps, p)
  {
    if ps != [] {
      LessIsStrictTotal(p.key, ps[0].key);
      if Less(p.key, ps[0].key) {
        forall j | 0 < j < |ps| ensures Less(p.key, ps[j].key) {
          LessIsTransitive(p.key, ps[0].key, ps[j].key);
        }
        NotBelow(ps, p.key);
        assert ([p] + ps)[1..] == ps;
      } else if ps[0].key != p.key {
        EmplaceLookup(ps[1..], p, key);
        var rest := Emplace(ps[1..], p);
        forall j | 0 <= j < |rest| ensures Less(ps[0].key, rest[j].key) {
          assert rest[j] in rest;
          if rest[j] in ps[1..] {
            var i :| 0 <= i < |ps[1..]| && ps[1..][i] == rest[j];
            assert ps[i + 1] == rest[j];
          }
        }
        assert ([ps[0]] + rest)[1..] == rest;
      }
    }
  }

  /** A key below the first is not among the keys. */
  lemma {:induction false} NotBelow(ps: seq<Pair>, key: string)
    requires forall j :: 0 <= j < |ps| ==> Less(key, ps[j].key)
    ensures Lookup(ps, key) == []
  {
    if ps != [] {
      LessIsStrictTotal(key, ps[0].key);
      NotBelow(ps[1..], key);
    }
  }

  /** Where the walk stops, the parameter is put, unless its key is there. */
  lemma {:induction false} EmplaceAt(ps: seq<Pair>, p: Pair, n: nat)
    requires n <= |ps| && (forall i :: 0 <= i < n ==> Less(ps[i].key, p.key)) && (n < |ps| ==> !Less(ps[n].key, p.key))
    ensures Emplace(ps, p) == if n == |ps| || ps[n].key != p.key then ps[..n] + [p] + ps[n..] else ps
  {
    hide Less;
    if n > 0 {
      LessIsStrictTotal(ps[0].key, p.key);
      EmplaceAt(ps[1..], p, n - 1);
      OneFurther(ps, p, n);
    } else if ps != [] {
      LessIsStrictTotal(ps[0].key, p.key);
    }
  }

  lemma {:induction false} OneFurther(ps: seq<Pair>, p: Pair, n: nat)
    requires 0 < n <= |ps|
    ensures [ps[0]] + (ps[1..][..n - 1] + [p] + ps[1..][n - 1..]) == ps[..n] + [p] + ps[n..]
    ensures [ps[0]] + ps[1..] == ps
    ensures n < |ps| ==> ps[1..][n - 1] == ps[n]
  {
  }

  /** The value that the first component with a key gives it. */
  function First(components: seq<string>, key: string): seq<string> {
    if components == [] then []
    else
      var p := ParseComponent(components[0]);
      if p.key == key then [p.value] else First(components[1..], key)
  }

  lemma {:induction false} EmplaceAllLookup(ps: seq<Pair>, components: seq<string>, key: string)
    requires Sorted(ps)
    ensures Sorted(EmplaceAll(ps, components))
    ensures Lookup(EmplaceAll(ps, components), key) ==
              if Lookup(ps, key) != [] then Lookup(ps, key) else First(components, key)
    decreases |components|
  {
    if components != [] {
      var p := ParseComponent(components[0]);
      EmplaceLookup(ps, p, key);
      EmplaceAllLookup(Emplace(ps, p), components[1..], key);
    }
  }

  /** Parsing keeps, for every key, the value of the first component that has it. */
  lemma {:induction false} FirstWins(raw: string, d: char, key: string)
    ensures Sorted(Parse(raw, d)) && Lookup(Parse(raw, d), key) == First(Split(raw, d), key)
  {
    EmplaceAllLookup([], Split(raw, d), key);
  }

  // Dump and parse again.

  /** What the default delimiter leaves of keys and values. */
  predicate Clean(p: Pair) {
    '&' !in p.key && '=' !in p.key && '&' !in p.value
  }

  predicate AllClean(ps: seq<Pair>) {
    forall i :: 0 <= i < |ps| ==> Clean(ps[i])
  }

  lemma {:induction false} SplitIsClean(s: string, d: char)
    ensures forall i :: 0 <= i < |Split(s, d)| ==> d !in Split(s, d)[i]
    decreases |s|
  {
    if s != "" {
      var n := Find(s, d);
      if n < |s| {
        SplitIsClean(s[n + 1..], d);
      }
    }
  }

  lemma {:induction false} EmplaceIsClean(ps: seq<Pair>, p: Pair)
    requires AllClean(ps) && Clean(p)
    ensures AllClean(Emplace(ps, p))
  {
    if ps != [] && !Less(p.key, ps[0].key) && ps[0].key != p.key {
      EmplaceIsClean(ps[1..], p);
    }
  }

  lemma {:induction false} EmplaceAllIsClean(ps: seq<Pair>, components: seq<string>)
    requires AllClean(ps) && forall i :: 0 <= i < |components| ==> '&' !in components[i]
    ensures AllClean(EmplaceAll(ps, components))
    decreases |components|
  {
    if components != [] {
      EmplaceIsClean(ps, ParseComponent(components[0]));
      EmplaceAllIsClean(Emplace(ps, ParseComponent(components[0])), components[1..]);
    }
  }

  lemma {:induction false} ComponentReads(p: Pair)
    requires Clean(p)
    ensures ParseComponent(Component(p)) == p && '&' !in Component(p) && Component(p) != ""
  {
    FindIs(Component(p), '=', |p.key|);
  }

  function Components(ps: seq<Pair>): seq<string> {
    if ps == [] then [] else [Component(ps[0])] + Components(ps[1..])
  }

  lemma {:induction false} SplitHead(c: string, rest: string)
    requires '&' !in c
    ensures Split(c + "&" + rest, '&') == [c] + Split(rest, '&')
  {
    var s := c + "&" + rest;
    SplitStep(s, '&', |c|);
    assert s[..|c|] == c && s[|c| + 1..] == rest;
  }

  lemma {:induction false} DumpSplits(ps: seq<Pair>)
    requires AllClean(ps)
    ensures Split(Dump(ps), '&') == Components(ps)
  {
    if ps != [] {
      var c := Component(ps[0]);
      ComponentReads(ps[0]);
      if |ps| == 1 {
        SplitStep(c, '&', |c|);
      } else {
        DumpSplits(ps[1..]);
        SplitHead(c, Dump(ps[1..]));
      }
    }
  }

  lemma {:induction false} EmplaceLast(ps: seq<Pair>, p: Pair)
    requires Sorted(ps + [p])
    ensures Emplace(ps, p) == ps + [p]
  {
    if ps != [] {
      assert Less((ps + [p])[0].key, (ps + [p])[|ps|].key);
      LessIsStrictTotal(ps[0].key, p.key);
      assert (ps + [p])[1..] == ps[1..] + [p];
      EmplaceLast(ps[1..], p);
    }
  }

  lemma {:induction false} EmplaceInOrder(done: seq<Pair>, rest: seq<Pair>)
    requires Sorted(done + rest) && AllClean(rest)
    ensures EmplaceAll(done, Components(rest)) == done + rest
    decreases |rest|
  {
    if rest == [] {
      assert done + rest == done;
    } else {
      ComponentReads(rest[0]);
      assert (done + rest)[..|done| + 1] == done + [rest[0]];
      EmplaceLast(done, rest[0]);
      assert done + [rest[0]] + rest[1..] == done + rest;
      EmplaceInOrder(done + [rest[0]], rest[1..]);
    }
  }

  /** Any parameters in order, with keys and values that parsing can give, survive dumping and parsing. */
  lemma {:induction false} DumpThenParse(ps: seq<Pair>)
    requires Sorted(ps) && AllClean(ps)
    ensures Parse(Dump(ps), '&') == ps
  {
    DumpSplits(ps);
    assert [] + ps == ps;
    EmplaceInOrder([], ps);
  }

  /** For every raw query string, parsing is stable: dumping and parsing again changes nothing. */
  lemma {:induction false} ParseIsStable(raw: string)
    ensures Parse(Dump(Parse(raw, '&')), '&') == Parse(raw, '&')
  {
    EmplaceAllLookup([], Split(raw, '&'), "");
    SplitIsClean(raw, '&');
    EmplaceAllIsClean([], Split(raw, '&'));
    DumpThenParse(Parse(raw, '&'));
  }

  // Another delimiter, which dump ignores.

  /** All components of the raw string have the same key. */
  predicate OneKey(raw: string, d: char) {
    var cs := Split(raw, d);
    forall i, j :: 0 <= i < |cs| && 0 <= j < |cs| ==> ParseComponent(cs[i]).key == ParseComponent(cs[j]).key
  }

  /** Every parameter comes from a component. */
  lemma {:induction false} EmplacedFrom(ps: seq<Pair>, cs: seq<string>, q: Pair)
    requires q in EmplaceAll(ps, cs)
    ensures q in ps || exists i :: 0 <= i < |cs| && q == ParseComponent(cs[i])
    decreases |cs|
  {
    if cs != [] {
      var p := ParseComponent(cs[0]);
      EmplacedFrom(Emplace(ps, p), cs[1..], q);
      if q in Emplace(ps, p) {
        EmplaceAddsOne(ps, p);
        assert q in ps || q == ParseComponent(cs[0]);
      } else {
        var i :| 0 <= i < |cs[1..]| && q == ParseComponent(cs[1..][i]);
        assert cs[1..][i] == cs[i + 1];
      }
    }
  }

  function Weight(ps: seq<Pair>): nat {
    if ps == [] then 0 else |ps[0].key| + Weight(ps[1..])
  }

  lemma {:induction false} EmplaceAddsOne(ps: seq<Pair>, p: Pair)
    ensures forall q :: q in Emplace(ps, p) ==> q in ps || q == p
    ensures var e := Emplace(ps, p); e == ps || (|e| == |ps| + 1 && Weight(e) == Weight(ps) + |p.key|)
  {
    if ps == [] || Less(p.key, ps[0].key) {
      assert ([p] + ps)[1..] == ps;
    } else if ps[0].key != p.key {
      EmplaceAddsOne(ps[1..], p);
      var rest := Emplace(ps[1..], p);
      assert ([ps[0]] + rest)[1..] == rest;
      assert rest == ps[1..] ==> [ps[0]] + rest == ps;
    }
  }

  function KeyLengths(cs: seq<string>): nat {
    if cs == [] then 0 else |ParseComponent(cs[0]).key| + KeyLengths(cs[1..])
  }

  /** At most one parameter for a component; with as many, no key is lost. */
  lemma {:induction false} EmplaceAllAdds(ps: seq<Pair>, cs: seq<string>)
    ensures |EmplaceAll(ps, cs)| <= |ps| + |cs|
    ensures |EmplaceAll(ps, cs)| == |ps| + |cs| ==> Weight(EmplaceAll(ps, cs)) == Weight(ps) + KeyLengths(cs)
    decreases |cs|
  {
    if cs != [] {
      EmplaceAddsOne(ps, ParseComponent(cs[0]));
      EmplaceAllAdds(Emplace(ps, ParseComponent(cs[0])), cs[1..]);
    }
  }

  lemma {:induction false} FirstFinds(cs: seq<string>, i: nat)
    requires i < |cs|
    ensures First(cs, ParseComponent(cs[i]).key) != []
  {
    if ParseComponent(cs[0]).key != ParseComponent(cs[i]).key {
      assert cs[1..][i - 1] == cs[i];
      FirstFinds(cs[1..], i - 1);
    }
  }

  /** The same keys all along leave one parameter. */
  lemma {:induction false} SameKeyAgain(ps: seq<Pair>, cs: seq<string>, key: string)
    requires |ps| <= 1 && (ps != [] ==> ps[0].key == key)
    requires forall i :: 0 <= i < |cs| ==> ParseComponent(cs[i]).key == key
    ensures |EmplaceAll(ps, cs)| <= 1
    decreases |cs|
  {
    if cs != [] {
      LessIsStrictTotal(key, key);
      SameKeyAgain(Emplace(ps, ParseComponent(cs[0])), cs[1..], key);
    }
  }

  lemma {:induction false} OneKeyIff(raw: string, d: char)
    ensures OneKey(raw, d) <==> |Parse(raw, d)| <= 1
  {
    var cs, ps := Split(raw, d), Parse(raw, d);
    if OneKey(raw, d) {
      SameKeyAgain([], cs, if cs == [] then "" else ParseComponent(cs[0]).key);
    }
    if |ps| <= 1 {
      forall i, j | 0 <= i < |cs| && 0 <= j < |cs|
        ensures ParseComponent(cs[i]).key == ParseComponent(cs[j]).key
      {
        FirstFinds(cs, i);
        FirstWins(raw, d, ParseComponent(cs[i]).key);
        FirstFinds(cs, j);
        FirstWins(raw, d, ParseComponent(cs[j]).key);
      }
    }
  }

  /** What another delimiter leaves of keys and values. */
  predicate Without(ps: seq<Pair>, d: char) {
    forall i :: 0 <= i < |ps| ==>
      && d !in ps[i].key && '=' !in ps[i].key && d !in ps[i].value && (d == '=' ==> ps[i].value == "")
  }

  lemma {:induction false} ParsedWithout(raw: string, d: char)
    ensures Without(Parse(raw, d), d)
  {
    var cs, ps := Split(raw, d), Parse(raw, d);
    forall i | 0 <= i < |ps|
      ensures d !in ps[i].key && '=' !in ps[i].key && d !in ps[i].value && (d == '=' ==> ps[i].value == "")
    {
      EmplacedFrom([], cs, ps[i]);
      var k :| 0 <= k < |cs| && ps[i] == ParseComponent(cs[k]);
      SplitIsClean(raw, d);
      assert d !in cs[k];
    }
  }

  /** The text that dump makes has no delimiter. */
  lemma {:induction false} DumpWithout(ps: seq<Pair>, d: char)
    requires Without(ps, d) && d != '&' && d != '='
    ensures d !in Dump(ps) && (ps != [] ==> Dump(ps) != "")
  {
    if |ps| > 1 {
      DumpWithout(ps[1..], d);
    }
  }

  /** One parameter is read back, whatever the delimiter. */
  lemma {:induction false} OneReadsBack(p: Pair, d: char)
    requires Without([p], d) && d != '&'
    ensures Parse(Dump([p]), d) == [p]
  {
    assert [p][0] == p;
    var c := Component(p);
    if d == '=' {
      FieldStep(p.key, "");
      assert c == p.key + "=" + "";
      FindIs(p.key, '=', |p.key|);
      assert ParseComponent(p.key) == p;
      Alone(p.key);
    } else {
      SplitStep(c, d, |c|);
      FindIs(c, '=', |p.key|);
      assert c[..|p.key|] == p.key && c[|p.key| + 1..] == p.value;
      Alone(c);
    }
  }

  lemma {:induction false} Alone(c: string)
    ensures EmplaceAll([], [c]) == [ParseComponent(c)]
  {
    assert [c][1..] == [];
  }

  lemma {:induction false} FieldStep(first: string, rest: string)
    requires '=' !in first
    ensures Split(first + "=" + rest, '=') == [first] + Split(rest, '=')
  {
    var s := first + "=" + rest;
    SplitStep(s, '=', |first|);
    assert s[..|first|] == first && s[|first| + 1..] == rest;
  }

  /** The fields between the equality signs of a dump without values. */
  function Fields(ps: seq<Pair>): seq<string> {
    if ps == [] then [] else ["&" + ps[0].key] + Fields(ps[1..])
  }

  /** `before` is what stands in front of the first key. */
  lemma {:induction false} DumpFields(before: string, ps: seq<Pair>)
    requires ps != [] && Without(ps, '=') && '=' !in before
    ensures Split(before + Dump(ps), '=') == [before + ps[0].key] + Fields(ps[1..])
    decreases |ps|
  {
    hide Split;
    var first := before + ps[0].key;
    if |ps| == 1 {
      FieldStep(first, "");
      assert before + Dump(ps) == first + "=" + "";
      assert Split("", '=') == [] by {
        SplitEmpty();
      }
    } else {
      var rest := "&" + Dump(ps[1..]);
      FieldStep(first, rest);
      assert before + Dump(ps) == first + "=" + rest;
      DumpFields("&", ps[1..]);
    }
  }

  lemma {:induction false} SplitEmpty()
    ensures Split("", '=') == []
  {
  }

  lemma {:induction false} FieldLengths(ps: seq<Pair>)
    requires Without(ps, '=')
    ensures |Fields(ps)| == |ps| && KeyLengths(Fields(ps)) == Weight(ps) + |ps|
  {
    if ps != [] {
      FindIs("&" + ps[0].key, '=', |ps[0].key| + 1);
      assert ("&" + ps[0].key)[..|ps[0].key| + 1] == "&" + ps[0].key;
      FieldLengths(ps[1..]);
    }
  }

  /** Reading keys separated by equality signs gives them back longer than they were. */
  lemma {:induction false} EqualitySignGrows(ps: seq<Pair>)
    requires |ps| > 1 && Without(ps, '=')
    ensures Parse(Dump(ps), '=') != ps
  {
    DumpFields("", ps);
    assert "" + Dump(ps) == Dump(ps) && "" + ps[0].key == ps[0].key;
    var cs := [ps[0].key] + Fields(ps[1..]);
    FieldLengths(ps[1..]);
    FindIs(ps[0].key, '=', |ps[0].key|);
    assert cs[1..] == Fields(ps[1..]);
    EmplaceAllAdds([], cs);
  }

  /**
   * With any other delimiter parsing is stable exactly for the raw strings whose components all have
   * the same key, because dump separates by ampersands whatever it is asked for.
   */
  lemma {:induction false} OtherDelimiterIff(raw: string, d: char)
    requires d != '&'
    ensures Parse(Dump(Parse(raw, d)), d) == Parse(raw, d) <==> OneKey(raw, d)
  {
    var ps := Parse(raw, d);
    OneKeyIff(raw, d);
    ParsedWithout(raw, d);
    if |ps| == 1 {
      assert ps == [ps[0]];
      OneReadsBack(ps[0], d);
    } else if |ps| > 1 && d == '=' {
      EqualitySignGrows(ps);
    } else if |ps| > 1 {
      DumpWithout(ps, d);
      SplitStep(Dump(ps), d, |Dump(ps)|);
      EmplaceAllAdds([], Split(Dump(ps), d));
    }
  }

  /** An instance. */
  lemma {:induction false} OtherDelimiterIsNot()
    ensures Parse(Dump(Parse("a=1;b", ';')), ';') != Parse("a=1;b", ';')
  {
    FindIs("a=1;b", ';', 3);
    FindIs("b", ';', 1);
    assert "a=1;b"[..3] == "a=1" && "a=1;b"[4..] == "b";
    assert Split("a=1;b", ';') == ["a=1", "b"];
    FindIs("a=1", '=', 1);
    FindIs("b", '=', 1);
    assert ParseComponent("a=1").key == "a" && ParseComponent("b").key == "b";
    OtherDelimiterIff("a=1;b", ';');
  }

  lemma {:induction false} DumpSnoc(ps: seq<Pair>, p: Pair)
    ensures Dump(ps + [p]) == (if ps == [] then "" else Dump(ps) + "&") + Component(p)
  {
    if ps == [] {
      assert ps + [p] == [p];
    } else {
      assert (ps + [p])[1..] == ps[1..] + [p];
      DumpSnoc(ps[1..], p);
    }
  }
}
