/** The lookup of a variable in a query string, which cuts the string up as it goes. */
module CoapQuery {
  import opened Basics

  const EQUALS: byte := 61
  const AMPERSAND: byte := 38

  /** The first place at or after `p` that holds `c`, or the end. */
  function Next(t: seq<byte>, p: nat, c: byte): (k: nat)
    requires p <= |t|
    ensures p <= k <= |t| && (k < |t| ==> t[k] == c)
    decreases |t| - p
  {
    if p < |t| && t[p] != c then Next(t, p + 1, c) else p
  }

  /** The value of the first pair, from `p` on, whose name is `variable`: a name runs to the next "=", a value
    * to the next "&".
    */
  function Find(t: seq<byte>, p: nat, variable: seq<byte>): Option<seq<byte>>
    requires p <= |t|
    decreases |t| - p
  {
    var e := Next(t, p, EQUALS);
    if e == |t| then None
    else
      var a := Next(t, e + 1, AMPERSAND);
      if t[p..e] == variable then Some(t[e + 1..a])
      else if a == |t| then None
      else Find(t, a + 1, variable)
  }

  /** Place `i` is where a name or a value ends, in the pairs from `p` on. */
  predicate Separator(t: seq<byte>, p: nat, i: nat)
    requires p <= |t|
    decreases |t| - p
  {
    var e := Next(t, p, EQUALS);
    e < |t| && (i == e ||
      var a := Next(t, e + 1, AMPERSAND);
      a < |t| && (i == a || Separator(t, a + 1, i)))
  }

  /** `b` is the text, but for zero bytes at some of the places where names and values end. */
  ghost predicate Faithful(b: seq<byte>, t: seq<byte>) {
    |b| == |t| && forall i :: 0 <= i < |t| ==> b[i] == t[i] || (b[i] == 0 && Separator(t, 0, i))
  }

  predicate NoZero(t: seq<byte>) {
    forall i :: 0 <= i < |t| ==> t[i] != 0
  }

  /** The C string that begins at `p`. */
  function StringAt(b: seq<byte>, p: nat): seq<byte>
    decreases |b| - p
  {
    if p < |b| && b[p] != 0 then [b[p]] + StringAt(b, p + 1) else []
  }

  lemma {:induction false} StringEnds(b: seq<byte>, p: nat, e: nat)
    requires p <= e < |b| && b[e] == 0 && NoZero(b[p..e])
    ensures StringAt(b, p) == b[p..e]
    decreases e - p
  {
    if p < e {
      assert b[p..e] == [b[p]] + b[p + 1..e];
      assert b[p] in b[p..e];
      StringEnds(b, p + 1, e);
    }
  }

  /** No separator comes before the end of the first name, nor between that and the end of its value. */
  lemma {:induction false} SeparatorsLater(t: seq<byte>, p: nat, i: nat)
    requires p <= |t| && Separator(t, p, i)
    ensures Next(t, p, EQUALS) <= i < |t|
    ensures i == Next(t, p, EQUALS) || Next(t, Next(t, p, EQUALS) + 1, AMPERSAND) <= i
    decreases |t| - p
  {
    var e := Next(t, p, EQUALS);
    var a := Next(t, e + 1, AMPERSAND);
    if i != e && i != a {
      SeparatorsLater(t, a + 1, i);
    }
  }

  /** The parse of the original text from `p` on is all that is left to do. */
  ghost predicate Left(t: seq<byte>, p: nat, variable: seq<byte>) {
    && p <= |t| && Find(t, 0, variable) == Find(t, p, variable)
    && forall i :: p <= i ==> (Separator(t, 0, i) <==> Separator(t, p, i))
  }

  lemma AllLeft(t: seq<byte>, variable: seq<byte>)
    ensures Left(t, 0, variable)
  {
  }

  lemma NothingLeft(t: seq<byte>, variable: seq<byte>)
    requires Left(t, |t|, variable)
    ensures Find(t, 0, variable) == None
  {
  }

  /** No place of a stretch is a separator. */
  ghost predicate Plain(t: seq<byte>, p: nat, q: nat) {
    forall i :: p <= i < q ==> !Separator(t, 0, i)
  }

  /** What is known of the first pair that is left. */
  lemma FirstPair(t: seq<byte>, p: nat, variable: seq<byte>)
    requires Left(t, p, variable)
    ensures var e := Next(t, p, EQUALS);
      && Plain(t, p, e)
      && (if e == |t| then Find(t, 0, variable) == None
          else var a := Next(t, e + 1, AMPERSAND);
            && Separator(t, 0, e) && Plain(t, e + 1, a) && (a < |t| ==> Separator(t, 0, a))
            && (if t[p..e] == variable then Find(t, 0, variable) == Some(t[e + 1..a])
                else Left(t, if a < |t| then a + 1 else a, variable)))
  {
    var e := Next(t, p, EQUALS);
    forall i | p <= i < e
      ensures !Separator(t, 0, i)
    {
      if Separator(t, p, i) {
        SeparatorsLater(t, p, i);
      }
    }
    if e < |t| {
      var a := Next(t, e + 1, AMPERSAND);
      forall i | e + 1 <= i < a
        ensures !Separator(t, 0, i)
      {
        if Separator(t, p, i) {
          SeparatorsLater(t, p, i);
        }
      }
    }
  }

  /** The scanning loops: on to `stop` or a zero, which is where the original text has `stop`. */
  method Scan(query: array<byte>, from: nat, len: nat, stop: byte, ghost t: seq<byte>) returns (p: nat)
    requires from <= len < query.Length && |t| == len && NoZero(t) && Faithful(query[..len], t)
    requires Plain(t, from, Next(t, from, stop))
    ensures p == Next(t, from, stop) && query[from..p] == t[from..p]
  {
    hide Separator, NoZero;
    p := from;
    while p < len && query[p] != stop && query[p] != 0
      invariant from <= p <= Next(t, from, stop) && Next(t, p, stop) == Next(t, from, stop)
      invariant forall i :: from <= i < p ==> query[i] == t[i]
    {
      assert query[..len][p] == query[p];
      p := p + 1;
    }
    if p < len {
      assert query[..len][p] == query[p];
      assert t[p] != 0 by { NotZero(t, p); }
    }
  }

  lemma NotZero(t: seq<byte>, p: nat)
    requires NoZero(t) && p < |t|
    ensures t[p] != 0
  {
  }

  /** A zero is written at a separator, or just past the text. */
  method Cut(query: array<byte>, p: nat, len: nat, ghost t: seq<byte>)
    requires p <= len < query.Length && |t| == len && Faithful(query[..len], t) && (p < len ==> Separator(t, 0, p))
    modifies query
    ensures Faithful(query[..len], t) && query[p] == 0
    ensures query[..p] == old(query[..p]) && query[len + 1..] == old(query[len + 1..])
  {
    hide Separator;
    query[p] := 0;
    forall i | 0 <= i < len
      ensures query[..len][i] == t[i] || (query[..len][i] == 0 && Separator(t, 0, i))
    {
      assert i != p ==> query[..len][i] == old(query[..len])[i];
    }
  }

  /** The strings that the two cuts leave behind. */
  lemma PairStrings(b: seq<byte>, t: seq<byte>, name: nat, e: nat, a: nat)
    requires name <= e < a + 1 <= |t| + 1 <= |b| && e + 1 <= a && NoZero(t)
    requires b[name..e] == t[name..e] && b[e] == 0 && b[e + 1..a] == t[e + 1..a] && b[a] == 0
    ensures StringAt(b, name) == t[name..e] && StringAt(b, e + 1) == t[e + 1..a]
  {
    NoZeroWithin(t, name, e);
    NoZeroWithin(t, e + 1, a);
    StringEnds(b, name, e);
    StringEnds(b, e + 1, a);
  }

  lemma NoZeroWithin(t: seq<byte>, i: nat, j: nat)
    requires NoZero(t) && i <= j <= |t|
    ensures NoZero(t[i..j])
  {
    assert forall k :: 0 <= k < j - i ==> t[i..j][k] == t[i + k];
  }

  /** `coap_pdu_parse_query`. The text is what the buffer held before any lookup cut it up. */
  method ParseQuery(query: array<byte>, variable: seq<byte>, len: nat, ghost t: seq<byte>)
    returns (ok: bool, value: nat)
    requires len < query.Length && |t| == len && NoZero(t) && Faithful(query[..len], t)
    modifies query
    ensures Faithful(query[..len], t) && query[len + 1..] == old(query[len + 1..])
    ensures ok == Find(t, 0, variable).Some?
    ensures ok ==> value <= len && StringAt(query[..], value) == Find(t, 0, variable).value
  {
    hide Find, Faithful, Separator, StringAt, Left;
    var p := 0;
    value := 0;
    assert Left(t, 0, variable) by { AllLeft(t, variable); }
    while p < len
      invariant p <= len && Left(t, p, variable) && Faithful(query[..len], t)
      invariant query[len + 1..] == old(query[len + 1..])
      decreases len - p
    {
      FirstPair(t, p, variable);
      var name := p;
      p := Scan(query, p, len, EQUALS, t);
      ghost var e := p;
      Cut(query, p, len, t);
      if p >= len {
        return false, value;
      }
      ghost var named := query[..e + 1];
      assert named == query[..e] + [0];
      p := p + 1;
      value := p;
      p := Scan(query, p, len, AMPERSAND, t);
      ghost var valued := query[..p];
      Cut(query, p, len, t);
      assert query[..e + 1] == named by { Prefixes(query[..p], valued, e + 1); }
      PairStrings(query[..], t, name, e, p);
      if StringAt(query[..], name) == variable {
        return true, value;
      }
      if p < len {
        p := p + 1;
      }
    }
    NothingLeft(t, variable);
    ok := false;
  }

  lemma Prefixes(a: seq<byte>, b: seq<byte>, n: nat)
    requires a == b && n <= |a|
    ensures a[..n] == b[..n]
  {
  }

  // ------------------------------------------------------------------ lookups in a row

  /** Any number of lookups in one buffer: each finds what the original text says, whatever the ones before it
    * have cut.
    */
  method Lookups(query: array<byte>, variables: seq<seq<byte>>, len: nat) returns (values: seq<Option<seq<byte>>>)
    requires len < query.Length && NoZero(query[..len])
    modifies query
    ensures |values| == |variables|
    ensures forall k :: 0 <= k < |values| ==> values[k] == Find(old(query[..len]), 0, variables[k])
    ensures query[len + 1..] == old(query[len + 1..])
  {
    hide Find, Separator, StringAt, NoZero;
    ghost var t := query[..len];
    values := [];
    var k := 0;
    while k < |variables|
      invariant k == |values| <= |variables| && Faithful(query[..len], t)
      invariant forall i :: 0 <= i < k ==> values[i] == Find(t, 0, variables[i])
      invariant query[len + 1..] == old(query[len + 1..])
    {
      var ok, value := ParseQuery(query, variables[k], len, t);
      values := values + [if ok then Some(StringAt(query[..], value)) else None];
      k := k + 1;
    }
  }

  // ------------------------------------------------------------------ what the text means

  datatype Variable = Variable(name: seq<byte>, value: seq<byte>)

  predicate Plainly(v: Variable) {
    61 !in v.name && 38 !in v.value
  }

  /** "name=value", joined by "&": the characters 61 and 38. */
  function Written(vs: seq<Variable>): seq<byte> {
    if vs == [] then []
    else vs[0].name + [61] + vs[0].value + (if |vs| == 1 then [] else [38] + Written(vs[1..]))
  }

  function FirstNamed(vs: seq<Variable>, name: seq<byte>): Option<seq<byte>> {
    if vs == [] then None else if vs[0].name == name then Some(vs[0].value) else FirstNamed(vs[1..], name)
  }

  lemma {:induction false} NextAt(t: seq<byte>, p: nat, k: nat, c: byte)
    requires p <= k <= |t| && c !in t[p..k] && (k < |t| ==> t[k] == c)
    ensures Next(t, p, c) == k
    decreases k - p
  {
    if p < k {
      assert t[p] in t[p..k];
      assert t[p..k] == [t[p]] + t[p + 1..k];
      NextAt(t, p + 1, k, c);
    }
  }

  /** A lookup in a query written out from variables finds the first one of that name. */
  lemma {:induction false} FindsFirstNamed(before: seq<byte>, vs: seq<Variable>, name: seq<byte>)
    requires forall v :: v in vs ==> Plainly(v)
    ensures Find(before + Written(vs), |before|, name) == FirstNamed(vs, name)
    decreases |vs|
  {
    var t := before + Written(vs);
    hide Find, Next;
    if vs == [] {
      NothingThere(before, name);
    } else {
      var v := vs[0];
      assert v in vs;
      Layout(before, v.name, v.value, if |vs| == 1 then [] else [AMPERSAND] + Written(vs[1..]));
      OnePair(t, |before|, v, name);
      if |vs| == 1 {
        assert FirstNamed(vs[1..], name) == None;
      } else {
        var start := before + v.name + [EQUALS] + v.value + [AMPERSAND];
        assert t == start + Written(vs[1..]);
        FindsFirstNamed(start, vs[1..], name);
      }
    }
  }

  lemma NothingThere(before: seq<byte>, name: seq<byte>)
    ensures Find(before + [], |before|, name) == None
  {
  }

  lemma OnePair(t: seq<byte>, p: nat, v: Variable, name: seq<byte>)
    requires Plainly(v)
    requires var e := p + |v.name|;
      var a := e + 1 + |v.value|;
      && a <= |t| && t[p..e] == v.name && t[e] == EQUALS && t[e + 1..a] == v.value && (a < |t| ==> t[a] == AMPERSAND)
    ensures Find(t, p, name) ==
      if v.name == name then Some(v.value) else if p + |v.name| + 1 + |v.value| == |t| then None
      else Find(t, p + |v.name| + |v.value| + 2, name)
  {
    hide Next;
    var e := p + |v.name|;
    NextAt(t, p, e, EQUALS);
    NextAt(t, e + 1, e + 1 + |v.value|, AMPERSAND);
  }

  lemma Layout(before: seq<byte>, name: seq<byte>, value: seq<byte>, rest: seq<byte>)
    ensures var t := before + (name + [EQUALS] + value + rest);
      var e := |before| + |name|;
      var a := e + 1 + |value|;
      && |t| == a + |rest| && t[|before|..e] == name && t[e] == EQUALS && t[e + 1..a] == value &&
          (rest != [] ==> t[a] == rest[0])
  {
  }
}
