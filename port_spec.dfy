/** The `-p/--ports` argument of the scanner: a comma-separated list of single
    ports and `start-end` ranges, read into a set of ports, then sorted. Ports are
    not checked against 1..65535: any non-negative integer the digits spell is kept. */
module PortSpec {
  import opened Wrappers
  import opened Text

  /** How one comma-separated token is read. */
  datatype Token =
    | SinglePort(port: nat)                   // no '-', and `int()` accepts it
    | PortRange(start: nat, end: nat)         // exactly two ints around one '-', start <= end
    | ReversedRange(start: nat, end: nat)     // exactly two ints around one '-', start > end
    | MalformedRange                          // has '-', but not exactly two ints
    | MalformedSingle                         // no '-', and `int()` raises ValueError

  /** The warning printed for a token that is skipped; it carries the token text. */
  datatype Warning =
    | InvalidRange(token: string)
    | InvalidRangeFormat(token: string)
    | InvalidSinglePort(token: string)

  /** The branch structure of the parsing loop for one token: a token holding a '-'
      must split into exactly two integers, any other token must be one integer. */
  function ParseToken(tok: string): (t: Token)
    ensures t.PortRange? ==> t.start <= t.end
    ensures t.ReversedRange? ==> t.start > t.end
    ensures t.SinglePort? || t.MalformedSingle? <==> '-' !in tok
  {
    if '-' in tok then
      var parts := Split(tok, '-');
      if |parts| == 2 && ParseInt(parts[0]).Some? && ParseInt(parts[1]).Some? then
        var start, end := ParseInt(parts[0]).value, ParseInt(parts[1]).value;
        if start > end then ReversedRange(start, end) else PortRange(start, end)
      else
        MalformedRange
    else
      match ParseInt(tok)
      case Some(n) => SinglePort(n)
      case None => MalformedSingle
  }

  /** `range(start, end + 1)`: the integers from start to end, ascending; empty
      when start > end. */
  function Interval(start: int, end: int): (r: seq<int>)
    ensures |r| == if start <= end then end - start + 1 else 0
    ensures forall i :: 0 <= i < |r| ==> r[i] == start + i
    decreases end - start
  {
    if start > end then [] else [start] + Interval(start + 1, end)
  }

  /** An integer is in the range exactly when it lies between its bounds. */
  lemma IntervalMembership(start: int, end: int, p: int)
    ensures p in Interval(start, end) <==> start <= p <= end
  {
    if start <= p <= end {
      assert Interval(start, end)[p - start] == p;
    }
  }

  /** The range holds exactly the integers between its bounds. */
  lemma IntervalBounds(start: int, end: int)
    ensures forall p :: p in Interval(start, end) <==> start <= p <= end
  {
    forall p
      ensures p in Interval(start, end) <==> start <= p <= end
    {
      IntervalMembership(start, end, p);
    }
  }

  /** Each integer between the bounds occurs in the range exactly once. */
  lemma {:induction false} IntervalCount(start: int, end: int, p: int)
    ensures multiset(Interval(start, end))[p] == if start <= p <= end then 1 else 0
    decreases end - start
  {
    if start <= end {
      IntervalCount(start + 1, end, p);
    }
  }

  /** The ports one token adds to the set: none unless it is read as a single port
      or as a range in order. */
  function TokenPorts(t: Token): (ports: set<int>)
    ensures ports != {} ==> t.SinglePort? || t.PortRange?
    ensures t.SinglePort? ==> ports == {t.port}
    ensures t.PortRange? ==> forall p :: p in ports <==> t.start <= p <= t.end
  {
    match t
    case SinglePort(p) => {p}
    case PortRange(start, end) =>
      IntervalBounds(start, end);
      set p | p in Interval(start, end)
    case _ => {}
  }

  /** The warning one token prints, if it is skipped; it names the token, and its
      kind is the way the token failed. */
  function TokenWarning(tok: string): (w: Option<Warning>)
    ensures w.Some? <==> !(ParseToken(tok).SinglePort? || ParseToken(tok).PortRange?)
    ensures w.Some? ==> w.value.token == tok
    ensures ParseToken(tok).ReversedRange? <==> w == Some(InvalidRange(tok))
    ensures ParseToken(tok).MalformedRange? <==> w == Some(InvalidRangeFormat(tok))
    ensures ParseToken(tok).MalformedSingle? <==> w == Some(InvalidSinglePort(tok))
  {
    match ParseToken(tok)
    case ReversedRange(_, _) => Some(InvalidRange(tok))
    case MalformedRange => Some(InvalidRangeFormat(tok))
    case MalformedSingle => Some(InvalidSinglePort(tok))
    case _ => None
  }

  /** The set the parsing loop builds from a list of tokens. */
  function PortsOf(tokens: seq<string>): set<int>
  {
    if tokens == [] then {}
    else PortsOf(tokens[..|tokens| - 1]) + TokenPorts(ParseToken(tokens[|tokens| - 1]))
  }

  /** The warnings the parsing loop prints, in token order. */
  function WarningsOf(tokens: seq<string>): seq<Warning>
  {
    if tokens == [] then []
    else
      var last := tokens[|tokens| - 1];
      WarningsOf(tokens[..|tokens| - 1]) + match TokenWarning(last) { case Some(w) => [w] case None => [] }
  }

  /** The parsing loop: each token either adds its ports to the set (`add` for a
      single port, `update` with the inclusive range) or prints a warning and is
      skipped; later tokens are read either way. */
  method CollectPorts(tokens: seq<string>) returns (ports: set<int>, warnings: seq<Warning>)
    ensures ports == PortsOf(tokens)
    ensures warnings == WarningsOf(tokens)
  {
    ports, warnings := {}, [];
    for k := 0 to |tokens|
      invariant ports == PortsOf(tokens[..k])
      invariant warnings == WarningsOf(tokens[..k])
    {
      var tok := tokens[k];
      assert tokens[..k + 1][..k] == tokens[..k];
      match ParseToken(tok)
      case PortRange(start, end) =>
        ports := ports + set p | p in Interval(start, end);
      case ReversedRange(_, _) =>
        warnings := warnings + [InvalidRange(tok)];
      case MalformedRange =>
        warnings := warnings + [InvalidRangeFormat(tok)];
      case SinglePort(port) =>
        ports := ports + {port};
      case MalformedSingle =>
        warnings := warnings + [InvalidSinglePort(tok)];
    }
    assert tokens[..|tokens|] == tokens;
  }

  /** A token is warned about exactly when it contributes no port. */
  lemma WarnedIffNoPorts(tok: string)
    ensures TokenWarning(tok).Some? <==> TokenPorts(ParseToken(tok)) == {}
  {
    var t := ParseToken(tok);
    if t.PortRange? {
      IntervalMembership(t.start, t.end, t.start);
      assert t.start in TokenPorts(t);
    }
  }

  /** A port is in the parsed set exactly when some token contributes it:
      the set is the union of the tokens' contributions, duplicates collapsed. */
  lemma {:induction false} PortsOfMembership(tokens: seq<string>, p: int)
    ensures p in PortsOf(tokens)
            <==> exists i :: 0 <= i < |tokens| && p in TokenPorts(ParseToken(tokens[i]))
  {
    if p in PortsOf(tokens) {
      var i := PortsOfWitness(tokens, p);
    }
    if exists i :: 0 <= i < |tokens| && p in TokenPorts(ParseToken(tokens[i])) {
      var i :| 0 <= i < |tokens| && p in TokenPorts(ParseToken(tokens[i]));
      ContributionInPortsOf(tokens, i, p);
    }
  }

  /** The token a port of the parsed set comes from. */
  lemma {:induction false} PortsOfWitness(tokens: seq<string>, p: int) returns (i: nat)
    requires p in PortsOf(tokens)
    ensures i < |tokens| && p in TokenPorts(ParseToken(tokens[i]))
  {
    var init, last := tokens[..|tokens| - 1], tokens[|tokens| - 1];
    assert tokens == init + [last];
    PortsOfSnoc(init, last);
    if p in PortsOf(init) {
      i := PortsOfWitness(init, p);
      assert init[i] == tokens[i];
    } else {
      i := |tokens| - 1;
    }
  }

  /** Every port a token contributes is in the parsed set. */
  lemma {:induction false} ContributionInPortsOf(tokens: seq<string>, i: nat, p: int)
    requires i < |tokens| && p in TokenPorts(ParseToken(tokens[i]))
    ensures p in PortsOf(tokens)
  {
    var init, last := tokens[..|tokens| - 1], tokens[|tokens| - 1];
    assert tokens == init + [last];
    PortsOfSnoc(init, last);
    if i < |init| {
      assert init[i] == tokens[i];
      ContributionInPortsOf(init, i, p);
    }
  }

  /** Tokens are read independently: the set for a list of tokens is the set for
      its first part together with the set for the rest, so a skipped token does not
      stop the tokens after it from being read. */
  lemma {:induction false} PortsOfAppend(first: seq<string>, rest: seq<string>)
    ensures PortsOf(first + rest) == PortsOf(first) + PortsOf(rest)
  {
    if rest == [] {
      assert first + rest == first;
    } else {
      var init, last := rest[..|rest| - 1], rest[|rest| - 1];
      assert rest == init + [last];
      assert first + rest == (first + init) + [last];
      PortsOfAppend(first, init);
      calc {
        PortsOf(first + rest);
        { PortsOfSnoc(first + init, last); }
        PortsOf(first + init) + TokenPorts(ParseToken(last));
        PortsOf(first) + PortsOf(init) + TokenPorts(ParseToken(last));
        { PortsOfSnoc(init, last); }
        PortsOf(first) + PortsOf(rest);
      }
    }
  }

  /** One more token adds its own contribution to the set. */
  lemma PortsOfSnoc(tokens: seq<string>, last: string)
    ensures PortsOf(tokens + [last]) == PortsOf(tokens) + TokenPorts(ParseToken(last))
  {
    assert (tokens + [last])[..|tokens|] == tokens;
  }

  /** At most one warning per token. */
  lemma {:induction false} WarningsBound(tokens: seq<string>)
    ensures |WarningsOf(tokens)| <= |tokens|
  {
    if tokens != [] {
      WarningsBound(tokens[..|tokens| - 1]);
    }
  }

  /** No port at all is parsed exactly when every token was skipped with a warning. */
  lemma {:induction false} NoPortsIffAllWarned(tokens: seq<string>)
    ensures PortsOf(tokens) == {} <==> |WarningsOf(tokens)| == |tokens|
  {
    if tokens != [] {
      var init := tokens[..|tokens| - 1];
      NoPortsIffAllWarned(init);
      WarningsBound(init);
      WarnedIffNoPorts(tokens[|tokens| - 1]);
    }
  }

  /** `str(n)` as a token, whitespace around it allowed (as in the second token of
      `80, 443`), is read back as the single port n; 0 and values above 65535 are
      kept as well, since there is no range check. */
  lemma SinglePortToken(pre: string, n: nat, post: string)
    requires AllSpace(pre) && AllSpace(post)
    ensures ParseToken(pre + NatToString(n) + post) == SinglePort(n)
    ensures TokenPorts(ParseToken(pre + NatToString(n) + post)) == {n}
  {
    var d := NatToString(n);
    var tok := pre + d + post;
    ParsePadded(pre, false, n, post);
    assert pre + "" + d + post == tok;
    forall i | 0 <= i < |tok|
      ensures tok[i] != '-'
    {
      if i < |pre| {
        assert IsSpace(pre[i]);
      } else if i < |pre| + |d| {
        assert IsDigit(d[i - |pre|]);
      } else {
        assert IsSpace(post[i - |pre| - |d|]);
      }
    }
  }

  /** `f"{a}-{b}"` is read back as the range a..b when a <= b, and is skipped as an
      invalid range otherwise. */
  lemma RangeToken(a: nat, b: nat)
    ensures ParseToken(NatToString(a) + "-" + NatToString(b))
            == if a <= b then PortRange(a, b) else ReversedRange(a, b)
  {
    var sa, sb := NatToString(a), NatToString(b);
    assert forall i :: 0 <= i < |sa| ==> IsDigit(sa[i]);
    assert forall i :: 0 <= i < |sb| ==> IsDigit(sb[i]);
    assert '-' !in sa && '-' !in sb;
    var tok := sa + "-" + sb;
    assert tok[|sa|] == '-';
    assert Join([sa, sb], '-') == tok;
    SplitUnique([sa, sb], '-');
    ParseNatToString(a);
    ParseNatToString(b);
  }

  /** A token with two or more '-' (such as `1-2-3`) is not a range: it does not
      unpack into exactly two ints. */
  lemma ManyDashesMalformed(tok: string)
    requires multiset(tok)['-'] >= 2
    ensures ParseToken(tok) == MalformedRange
  {
    assert '-' in multiset(tok);
    SplitCount(tok, '-');
  }

  /** A token that starts or ends with '-' (such as `-5`) has an empty side, which
      `int()` rejects. */
  lemma EdgeDashMalformed(tok: string)
    requires tok != [] && (tok[0] == '-' || tok[|tok| - 1] == '-')
    ensures ParseToken(tok) == MalformedRange
  {
    var parts := Split(tok, '-');
    assert '-' in tok;
    SplitJoin(tok, '-');
    if |parts| == 2 {
      assert Join(parts[1..], '-') == parts[1];
      assert tok == parts[0] + "-" + parts[1];
      assert parts[0] == [] || parts[1] == [];
    }
  }

  predicate IsLeast(m: int, s: set<int>) {
    m in s && forall x :: x in s ==> m <= x
  }

  predicate IsGreatest(m: int, s: set<int>) {
    m in s && forall x :: x in s ==> x <= m
  }

  lemma LeastWithOneMore(s: set<int>, m: int, y: int)
    requires IsLeast(m, s)
    ensures IsLeast(if y < m then y else m, s + {y})
  {
  }

  lemma GreatestWithOneMore(s: set<int>, m: int, y: int)
    requires IsGreatest(m, s)
    ensures IsGreatest(if y > m then y else m, s + {y})
  {
  }

  /** Some element of a non-empty set. */
  lemma AnElement<T>(s: set<T>) returns (y: T)
    requires s != {}
    ensures y in s
  {
    y :| y in s;
  }

  /** `min()` of a non-empty set exists. */
  lemma {:induction false} HasLeast(s: set<int>)
    requires s != {}
    ensures exists m :: IsLeast(m, s)
  {
    var y := AnElement(s);
    if s == {y} {
      assert IsLeast(y, s);
    } else {
      var rest := s - {y};
      HasLeast(rest);
      var m :| IsLeast(m, rest);
      LeastWithOneMore(rest, m, y);
      assert rest + {y} == s;
    }
  }

  /** `max()` of a non-empty set exists. */
  lemma {:induction false} HasGreatest(s: set<int>)
    requires s != {}
    ensures exists m :: IsGreatest(m, s)
  {
    var y := AnElement(s);
    if s == {y} {
      assert IsGreatest(y, s);
    } else {
      var rest := s - {y};
      HasGreatest(rest);
      var m :| IsGreatest(m, rest);
      GreatestWithOneMore(rest, m, y);
      assert rest + {y} == s;
    }
  }

  /** `min(s)`. */
  function SetMin(s: set<int>): (m: int)
    requires s != {}
    ensures m in s && forall x :: x in s ==> m <= x
  {
    HasLeast(s);
    var m :| IsLeast(m, s); m
  }

  /** `max(s)`. */
  function SetMax(s: set<int>): (m: int)
    requires s != {}
    ensures m in s && forall x :: x in s ==> x <= m
  {
    HasGreatest(s);
    var m :| IsGreatest(m, s); m
  }

  predicate StrictlyAscending(r: seq<int>) {
    forall i, j :: 0 <= i < j < |r| ==> r[i] < r[j]
  }

  /** Putting the least element of a set in front of a sorted list of the others
      gives a sorted list of the whole set. */
  lemma PrependLeast(s: set<int>, m: int, rest: seq<int>)
    requires IsLeast(m, s)
    requires |rest| == |s - {m}| && (forall x :: x in rest <==> x in s - {m})
    requires StrictlyAscending(rest)
    ensures |[m] + rest| == |s| && (forall x :: x in [m] + rest <==> x in s)
    ensures StrictlyAscending([m] + rest)
  {
    var r := [m] + rest;
    forall i, j | 0 <= i < j < |r|
      ensures r[i] < r[j]
    {
      if i == 0 {
        assert r[j] == rest[j - 1] && rest[j - 1] in s - {m};
      } else {
        assert r[i] == rest[i - 1] && r[j] == rest[j - 1];
      }
    }
  }

  /** `sorted(list(s))`: the elements of the set, each once, in strictly ascending order. */
  function SortedList(s: set<int>): (r: seq<int>)
    ensures |r| == |s|
    ensures forall x :: x in r <==> x in s
    ensures StrictlyAscending(r)
    decreases |s|
  {
    if s == {} then []
    else
      var m := SetMin(s);
      PrependLeast(s, m, SortedList(s - {m}));
      [m] + SortedList(s - {m})
  }

  /** Every element of the set appears exactly once in the sorted list. */
  lemma {:induction false} SortedListCount(s: set<int>, p: int)
    ensures multiset(SortedList(s))[p] == if p in s then 1 else 0
    decreases |s|
  {
    if s != {} {
      var m := SetMin(s);
      SortedListCount(s - {m}, p);
      assert SortedList(s) == [m] + SortedList(s - {m});
    }
  }
}
