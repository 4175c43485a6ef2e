/** Client groups: wildcard parameters and tag expressions (server/cgroups/group.go).

    Letter case is folded by a function `lower` that every member takes as an argument, so what is
    proved holds for any case folding, Go's Unicode one included. */
module ClientGroups {
  import opened Text

  /** The meaning of a pattern: `*` stands for any run of bytes, every other byte for itself. */
  ghost predicate Glob(p: string, v: string) {
    if p == [] then v == []
    else if p[0] == '*' then exists k :: 0 <= k <= |v| && Glob(p[1..], v[k..])
    else v != [] && v[0] == p[0] && Glob(p[1..], v[1..])
  }

  /** strings.Split(p, "*") */
  function Split(p: string): (parts: seq<string>)
    ensures |parts| >= 1
    ensures |parts| == 1 <==> '*' !in p
    ensures |parts| == 1 ==> parts == [p]
  {
    if p == [] then [[]]
    else
      var rest := Split(p[1..]);
      if p[0] == '*' then [[]] + rest
      else
        assert p == [p[0]] + p[1..];
        [[p[0]] + rest[0]] + rest[1..]
  }

  /** Param.matches: the leftmost-greedy matcher decides the meaning of the pattern. */
  method Matches(param: string, value: string, lower: string -> string) returns (r: bool)
    ensures r <==> Glob(lower(param), lower(value))
  {
    var str := lower(param);
    var v := lower(value);
    GlobIsAnchored(str, v);
    if '*' in str {
      var parts := Split(str);
      AnchoredIsGreedy(parts, v);
      if !StartsWith(v, parts[0]) || !EndsWith(v, parts[|parts| - 1]) {
        return false;
      }
      var rest := v;
      for n := 0 to |parts|
        invariant Greedy(parts, v) <==> Greedy(parts[n..], rest)
      {
        var i := Index(rest, parts[n]);
        assert parts[n..][1..] == parts[n + 1..];
        if i == -1 {
          return false;
        }
        rest := rest[i + |parts[n]|..];
      }
      return true;
    }
    return str == v;
  }

  /** Each part is taken at its leftmost place behind the part before it. */
  predicate Greedy(parts: seq<string>, v: string) {
    parts == [] || (Index(v, parts[0]) != -1 && Greedy(parts[1..], Behind(v, parts[0])))
  }

  /** What follows the leftmost occurrence of `t`. */
  function Behind(v: string, t: string): string
    requires Index(v, t) != -1
  {
    v[Index(v, t) + |t|..]
  }

  /** The parts cover `v` from its start to its end, with arbitrary gaps between them. */
  ghost predicate Anchored(parts: seq<string>, v: string)
    requires |parts| >= 1
    decreases |parts|, 0
  {
    if |parts| == 1 then v == parts[0]
    else StartsWith(v, parts[0]) && Floating(parts[1..], v[|parts[0]|..])
  }

  /** As Anchored, with a gap allowed in front of the first part as well. */
  ghost predicate Floating(parts: seq<string>, v: string)
    requires |parts| >= 1
    decreases |parts|, 1
  {
    exists k :: 0 <= k <= |v| && Anchored(parts, v[k..])
  }

  lemma {:induction false} GlobIsAnchored(p: string, v: string)
    ensures Glob(p, v) <==> Anchored(Split(p), v)
    decreases |p|
  {
    if p == [] {
    } else if p[0] == '*' {
      var rest := Split(p[1..]);
      assert Split(p)[1..] == rest;
      assert v[0..] == v;
      forall k | 0 <= k <= |v| ensures Glob(p[1..], v[k..]) <==> Anchored(rest, v[k..]) {
        GlobIsAnchored(p[1..], v[k..]);
      }
    } else if v != [] && v[0] == p[0] {
      GlobIsAnchored(p[1..], v[1..]);
      AnchoredSkipsByte(p[0], Split(p[1..]), v);
    } else {
      assert Split(p)[0][0] == p[0];
    }
  }

  lemma AnchoredSkipsByte(c: char, rest: seq<string>, v: string)
    requires |rest| >= 1 && v != [] && v[0] == c
    ensures Anchored([[c] + rest[0]] + rest[1..], v) <==> Anchored(rest, v[1..])
  {
    var parts := [[c] + rest[0]] + rest[1..];
    assert v == [c] + v[1..];
    assert parts[1..] == rest[1..];
    if |rest| == 1 {
      assert v == parts[0] <==> v[1..] == rest[0];
    } else if |parts[0]| <= |v| {
      assert v[..|parts[0]|] == [c] + v[1..][..|rest[0]|];
      assert StartsWith(v, parts[0]) <==> StartsWith(v[1..], rest[0]);
      assert v[|parts[0]|..] == v[1..][|rest[0]|..];
    }
  }

  /** For a pattern with a `*`, the two end checks and the greedy scan decide it together. */
  lemma AnchoredIsGreedy(parts: seq<string>, v: string)
    requires |parts| >= 2
    ensures Anchored(parts, v) <==>
            StartsWith(v, parts[0]) && EndsWith(v, parts[|parts| - 1]) && Greedy(parts, v)
  {
    if StartsWith(v, parts[0]) {
      assert Index(v, parts[0]) == 0;
      FloatingIsGreedy(parts[1..], v[|parts[0]|..]);
      SuffixOfTail(parts[1..], v, |parts[0]|);
    }
  }

  lemma FloatingIsGreedy(parts: seq<string>, v: string)
    requires |parts| >= 1
    ensures Floating(parts, v) <==> EndsWith(v, parts[|parts| - 1]) && Greedy(parts, v)
  {
    if Floating(parts, v) {
      var k := FloatsAt(parts, v);
      AnchoredIsFound(parts, v, k);
    }
    if EndsWith(v, parts[|parts| - 1]) && Greedy(parts, v) {
      GreedyIsFloating(parts, v);
    }
  }

  lemma {:induction false} AnchoredIsFound(parts: seq<string>, v: string, k: nat)
    requires |parts| >= 1 && k <= |v| && Anchored(parts, v[k..])
    ensures EndsWith(v, parts[|parts| - 1]) && Greedy(parts, v)
    decreases |parts|
  {
    var first, tail := parts[0], parts[1..];
    OccursInTail(v, first, k, k);
    if |parts| == 1 {
      assert tail == [];
    } else {
      var after := k + |first|;
      assert v[k..][|first|..] == v[after..];
      var j := FloatsAt(tail, v[after..]);
      AnchoredIsFound(tail, v[after..], j);
      GreedyKeepsMore(tail, v, Index(v, first) + |first|, after);
      assert Greedy(tail, Behind(v, first));
      SuffixOfTail(tail, v, after);
    }
  }

  lemma FloatsAt(parts: seq<string>, v: string) returns (k: nat)
    requires |parts| >= 1 && Floating(parts, v)
    ensures k <= |v| && Anchored(parts, v[k..])
  {
    k :| 0 <= k <= |v| && Anchored(parts, v[k..]);
  }

  lemma {:induction false} GreedyIsFloating(parts: seq<string>, v: string)
    requires |parts| >= 1 && EndsWith(v, parts[|parts| - 1]) && Greedy(parts, v)
    ensures Floating(parts, v)
    decreases |parts|
  {
    var first, last := parts[0], parts[|parts| - 1];
    if |parts| == 1 {
      assert v[|v| - |last|..] == last;
      assert Anchored(parts, v[|v| - |last|..]);
    } else {
      var i := Index(v, first);
      var after := i + |first|;
      SuffixOfTail(parts[1..], v, after);
      GreedyIsFloating(parts[1..], v[after..]);
      OccursInTail(v, first, i, i);
      assert v[i..][|first|..] == v[after..];
      assert Anchored(parts, v[i..]);
    }
  }

  /** Scanning from further left never loses a match. */
  lemma {:induction false} GreedyKeepsMore(parts: seq<string>, v: string, left: nat, right: nat)
    requires left <= right <= |v| && Greedy(parts, v[right..])
    ensures Greedy(parts, v[left..])
    decreases |parts|
  {
    if parts == [] {
    } else {
      var i := Index(v[right..], parts[0]);
      OccursInTail(v, parts[0], right, right + i);
      OccursInTail(v, parts[0], left, right + i);
      var j := Index(v[left..], parts[0]);
      assert j != -1 && left + j <= right + i;
      var n := |parts[0]|;
      assert v[right..][i + n..] == v[right + i + n..];
      assert v[left..][j + n..] == v[left + j + n..];
      GreedyKeepsMore(parts[1..], v, left + j + n, right + i + n);
    }
  }

  /** With room in the tail, ending a tail of `v` means ending `v`. */
  lemma SuffixWithRoom(last: string, v: string, cut: nat)
    requires cut <= |v| && |last| <= |v| - cut
    ensures EndsWith(v[cut..], last) <==> EndsWith(v, last)
  {
    OccursInTail(v, last, cut, |v| - |last|);
  }

  /** Ending a tail of `v` means ending `v`; the converse needs room in the tail, which a
      successful scan of the tail shows. */
  lemma SuffixOfTail(parts: seq<string>, v: string, cut: nat)
    requires |parts| >= 1 && cut <= |v|
    ensures EndsWith(v[cut..], parts[|parts| - 1]) ==> EndsWith(v, parts[|parts| - 1])
    ensures Greedy(parts, v[cut..]) && EndsWith(v, parts[|parts| - 1]) ==>
              EndsWith(v[cut..], parts[|parts| - 1])
  {
    if |parts[|parts| - 1]| <= |v| - cut {
      SuffixWithRoom(parts[|parts| - 1], v, cut);
    } else if Greedy(parts, v[cut..]) {
      GreedyHasRoom(parts, v[cut..]);
    }
  }

  lemma {:induction false} GreedyHasRoom(parts: seq<string>, v: string)
    requires |parts| >= 1 && Greedy(parts, v)
    ensures |parts[|parts| - 1]| <= |v|
    decreases |parts|
  {
    if |parts| == 1 {
    } else {
      GreedyHasRoom(parts[1..], Behind(v, parts[0]));
    }
  }

  /** ParamValues.MatchesOneOf */
  method MatchesOneOf(params: Option<seq<string>>, values: seq<string>, lower: string -> string)
    returns (r: bool)
    ensures r <==> params.None? || (params.value == [] && values == []) ||
                   exists p, v :: p in params.value && v in values && Glob(lower(p), lower(v))
  {
    if params.None? || (params.value == [] && values == []) {
      return true;
    }
    var ps := params.value;
    for i := 0 to |ps|
      invariant forall p, v :: p in ps[..i] && v in values ==> !Glob(lower(p), lower(v))
    {
      for j := 0 to |values|
        invariant forall v :: v in values[..j] ==> !Glob(lower(ps[i]), lower(v))
      {
        var m := Matches(ps[i], values[j], lower);
        if m {
          return true;
        }
      }
    }
    return false;
  }

  /** A tag expression as JSON decoding sees it: no bytes at all, an object of string lists, a list
      of strings, or anything else. */
  datatype RawTags = Blank | Object(fields: map<string, seq<string>>) | List(items: seq<string>) | Other

  lemma OnlyKey(fields: map<string, seq<string>>)
    requires |fields| == 1
    ensures exists k :: k in fields
    ensures forall a, b :: a in fields && b in fields ==> a == b
  {
    var k :| k in fields.Keys;
    assert |fields.Keys - {k}| == 0;
    assert fields.Keys == {k};
  }

  /** ParseTag, after JSON decoding; None is any error. `lower` folds the operator's case, as
      allowedOperator does. */
  function ParseTag(raw: RawTags, lower: string -> string): (r: Option<(string, seq<string>)>) {
    match raw
    case Object(fields) =>
      if |fields| != 1 then None
      else
        OnlyKey(fields);
        var op: string :| op in fields;
        if lower(op) != "and" && lower(op) != "or" then None
        else if fields[op] == [] then None
        else Some((op, fields[op]))
    case List(items) => if items == [] then None else Some(("or", items))
    case _ => None
  }

  ghost predicate Tagged(operand: string, values: seq<string>, lower: string -> string) {
    exists v :: v in values && Glob(lower(operand), lower(v))
  }

  ghost predicate Distinct<T(!new)>(s: seq<T>) {
    forall i, j :: 0 <= i < j < |s| ==> s[i] != s[j]
  }

  /** The double loop of MatchesRawTags: the operands that some value matches, as the keys of a map. */
  method MatchedOperands(operands: seq<string>, values: seq<string>, lower: string -> string)
    returns (matches: map<string, bool>)
    ensures forall o :: o in matches <==> o in operands && Tagged(o, values, lower)
  {
    matches := map[];
    for i := 0 to |values|
      invariant forall o :: o in matches <==> o in operands && Tagged(o, values[..i], lower)
    {
      for j := 0 to |operands|
        invariant forall o :: o in matches ==> o in operands && Tagged(o, values[..i + 1], lower)
        invariant forall o :: o in operands && Tagged(o, values[..i], lower) ==> o in matches
        invariant forall o :: o in operands[..j] && Glob(lower(o), lower(values[i])) ==> o in matches
      {
        if operands[j] in matches {
          continue;
        }
        var m := Matches(operands[j], values[i], lower);
        if m {
          matches := matches[operands[j] := true];
        }
      }
    }
    assert values[..|values|] == values;
  }

  /** MatchesRawTags. An `and` demands more than that every operand is matched: the operands are
      counted through a map, so a repeated operand makes the group match nothing. An operator in
      capitals passes the parser and then matches nothing. */
  method MatchesRawTags(raw: Option<RawTags>, values: seq<string>, lower: string -> string)
    returns (r: bool)
    ensures raw.None? ==> r
    ensures raw == Some(Blank) ==> (r <==> values == [])
    ensures raw.Some? && raw.value != Blank ==>
              match ParseTag(raw.value, lower)
              case None => !r
              case Some((op, operands)) =>
                (op == "and" ==>
                   (r <==> Distinct(operands) && forall o :: o in operands ==> Tagged(o, values, lower))) &&
                (op == "or" ==> (r <==> exists o :: o in operands && Tagged(o, values, lower))) &&
                (op != "and" && op != "or" ==> !r)
    // a list means "or"
    ensures raw.Some? && raw.value.List? ==>
              (r <==> exists o, v :: o in raw.value.items && v in values && Glob(lower(o), lower(v)))
    // an object means its operator
    ensures lower("and") == "and" && lower("or") == "or" && raw.Some? && raw.value.Object? &&
            |raw.value.fields| == 1 ==>
              forall op :: op in raw.value.fields ==>
                var operands := raw.value.fields[op];
                && (op == "and" ==>
                      (r <==> && operands != []
                              && (forall i, j :: 0 <= i < j < |operands| ==> operands[i] != operands[j])
                              && forall o :: o in operands ==> exists v :: v in values && Glob(lower(o), lower(v))))
                && (op == "or" ==> (r <==> exists o, v :: o in operands && v in values && Glob(lower(o), lower(v))))
                && (op != "and" && op != "or" ==> !r)
    ensures raw.Some? && raw.value.Object? && |raw.value.fields| != 1 ==> !r
    ensures raw.Some? && raw.value.Other? ==> !r
  {
    if raw.None? || (raw.value == Blank && values == []) {
      return true;
    }
    if raw.value.Object? && |raw.value.fields| == 1 {
      OnlyKey(raw.value.fields);
    }
    var parsed := ParseTag(raw.value, lower);
    if parsed.None? {
      return false;
    }
    var (op, operands) := parsed.value;
    var matches := MatchedOperands(operands, values, lower);
    if op == "and" {
      CountsAll(operands, matches.Keys);
      return |matches| == |operands|;
    }
    if op == "or" {
      assert |matches| > 0 <==> matches.Keys != {};
      assert matches.Keys != {} <==> exists o :: o in matches;
      return |matches| > 0;
    }
    return false;
  }

  /** A set drawn from a list is as large as the list exactly when it has all of the list's elements
      and the list does not repeat any. */
  lemma CountsAll(s: seq<string>, keys: set<string>)
    requires forall o :: o in keys ==> o in s
    ensures |keys| == |s| <==> Distinct(s) && forall o :: o in s ==> o in keys
  {
    if Distinct(s) && (forall o :: o in s ==> o in keys) {
      DistinctCount(s, keys);
    }
    if |keys| == |s| {
      FullCount(s, keys);
    }
  }

  lemma {:induction false} DistinctCount(s: seq<string>, keys: set<string>)
    requires Distinct(s) && forall o :: o in s <==> o in keys
    ensures |keys| == |s|
    decreases |s|
  {
    if s == [] {
      assert keys == {};
    } else {
      assert s == [s[0]] + s[1..];
      DistinctCount(s[1..], keys - {s[0]});
    }
  }

  lemma {:induction false} AtMostCount(s: seq<string>, keys: set<string>)
    requires forall o :: o in keys ==> o in s
    ensures |keys| <= |s|
    decreases |s|
  {
    if s == [] {
      assert keys == {};
    } else {
      assert s == [s[0]] + s[1..];
      AtMostCount(s[1..], keys - {s[0]});
    }
  }

  lemma {:induction false} FullCount(s: seq<string>, keys: set<string>)
    requires (forall o :: o in keys ==> o in s) && |keys| == |s|
    ensures Distinct(s) && forall o :: o in s ==> o in keys
    decreases |s|
  {
    if s == [] {
    } else {
      var x, rest := s[0], s[1..];
      assert s == [x] + rest;
      AtMostCount(rest, keys - {x});
      if x in rest || x !in keys {
        AtMostCount(rest, keys);
      } else {
        FullCount(rest, keys - {x});
      }
    }
  }
}
