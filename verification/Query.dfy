/** The query object of uri_query.cpp, in place. */
module Queries {
  import opened UriQuery

  lemma {:induction false} SplitFrom(input: string, d: char, p: nat, q: nat)
    requires p < |input| && p <= q <= |input|
    requires (forall i :: p <= i < q ==> input[i] != d) && (q < |input| ==> input[q] == d)
    ensures Split(input[p..], d) == [input[p..q]] + Split(input[if q < |input| then q + 1 else q..], d)
  {
    var s, n := input[p..], q - p;
    SplitStep(s, d, n);
    assert s[..n] == input[p..q];
    if q < |input| {
      assert s[n + 1..] == input[q + 1..];
    } else {
      assert input[q..] == "" && s[..|s|] == s;
    }
  }

  /** split. */
  method SplitLines(input: string, d: char) returns (output: seq<string>)
    ensures output == Split(input, d)
  {
    output := [];
    var p := 0;
    while p < |input|
      invariant p <= |input|
      invariant output + Split(input[p..], d) == Split(input, d)
    {
      var q := p;
      while q < |input| && input[q] != d
        invariant p <= q <= |input|
        invariant forall i :: p <= i < q ==> input[i] != d
      {
        q := q + 1;
      }
      SplitFrom(input, d, p, q);
      output := output + [input[p..q]];
      p := if q < |input| then q + 1 else q;
    }
    assert input[p..] == "";
  }

  class Query {
    var parameters: seq<Pair>  // m_parameters, as the map is walked

    ghost predicate Valid()
      reads this
    {
      Sorted(parameters)
    }

    constructor ()
      ensures Valid() && parameters == []
    {
      parameters := [];
    }

    /** emplace: a walk to the first key that is not smaller. */
    method Emplace(p: Pair)
      requires Valid()
      modifies this
      ensures Valid() && parameters == UriQuery.Emplace(old(parameters), p)
    {
      var n := 0;
      while n < |parameters| && Less(parameters[n].key, p.key)
        invariant n <= |parameters| && parameters == old(parameters)
        invariant forall i :: 0 <= i < n ==> Less(parameters[i].key, p.key)
      {
        n := n + 1;
      }
      EmplaceLookup(parameters, p, p.key);
      EmplaceAt(parameters, p, n);
      if n == |parameters| || parameters[n].key != p.key {
        parameters := parameters[..n] + [p] + parameters[n..];
      }
    }

    static method Parse(raw: string, delimiter: string) returns (q: Query)
      ensures fresh(q) && q.Valid()
      ensures q.parameters == UriQuery.Parse(raw, if delimiter == "" then 0 as char else delimiter[0])
    {
      q := new Query();
      var components := SplitLines(raw, if delimiter == "" then 0 as char else delimiter[0]);
      for i := 0 to |components|
        invariant q.Valid()
        invariant EmplaceAll(q.parameters, components[i..]) == EmplaceAll([], components)
      {
        q.Emplace(ParseComponent(components[i]));
        assert components[i..][0] == components[i] && components[i..][1..] == components[i + 1..];
      }
    }

    method Dump() returns (s: string)
      ensures s == UriQuery.Dump(parameters)
    {
      s := "";
      var first := true;
      for i := 0 to |parameters|
        invariant first <==> i == 0
        invariant s == UriQuery.Dump(parameters[..i])
      {
        if !first {
          s := s + "&";
        } else {
          first := false;
        }
        DumpSnoc(parameters[..i], parameters[i]);
        assert parameters[..i + 1] == parameters[..i] + [parameters[i]];
        s := s + (parameters[i].key + "=" + parameters[i].value);
      }
      assert parameters[..|parameters|] == parameters;
    }
  }
}
