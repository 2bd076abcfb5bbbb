/** String helpers in the manner of Go's strings package. */
module Text {

  /** The position of the first c in s, or -1. */
  function IndexOf(s: string, c: char): (i: int)
    ensures -1 <= i < |s|
    ensures i == -1 ==> c !in s
    ensures 0 <= i ==> s[i] == c && c !in s[..i]
  {
    if s == "" then -1
    else if s[0] == c then 0
    else
      var r := IndexOf(s[1..], c);
      if r < 0 then -1
      else
        assert s[..r + 1] == [s[0]] + s[1..][..r];
        r + 1
  }

  /** strings.Split with a one-character separator. */
  function Split(s: string, c: char): (parts: seq<string>)
    ensures parts != []
    decreases |s|
  {
    var i := IndexOf(s, c);
    if i < 0 then [s] else [s[..i]] + Split(s[i + 1..], c)
  }

  lemma {:induction false} FieldsHaveNoSeparator(s: string, c: char, k: nat)
    requires k < |Split(s, c)|
    ensures c !in Split(s, c)[k]
    decreases |s|
  {
    var i := IndexOf(s, c);
    if 0 <= i {
      var rest := Split(s[i + 1..], c);
      assert Split(s, c) == [s[..i]] + rest;
      hide Split;
      if 0 < k {
        FieldsHaveNoSeparator(s[i + 1..], c, k - 1);
      }
    }
  }

  /** strings.Join with a one-character separator. */
  function Join(parts: seq<string>, c: char): string {
    if parts == [] then ""
    else if |parts| == 1 then parts[0]
    else parts[0] + [c] + Join(parts[1..], c)
  }

  lemma IndexOfFirst(a: string, c: char, b: string)
    requires c !in a
    ensures IndexOf(a + [c] + b, c) == |a|
  {
    var s := a + [c] + b;
    var i := IndexOf(s, c);
    assert s[|a|] == c;
    assert forall j :: 0 <= j < |a| ==> s[j] == a[j];
  }

  /** Splitting off a field without separators. */
  lemma SplitField(a: string, c: char, b: string)
    requires c !in a
    ensures Split(a + [c] + b, c) == [a] + Split(b, c)
  {
    IndexOfFirst(a, c, b);
    assert (a + [c] + b)[..|a|] == a;
    assert (a + [c] + b)[|a| + 1..] == b;
  }

  lemma {:induction false} JoinSplit(s: string, c: char)
    ensures Join(Split(s, c), c) == s
    decreases |s|
  {
    var i := IndexOf(s, c);
    if 0 <= i {
      JoinSplit(s[i + 1..], c);
      var rest := Split(s[i + 1..], c);
      assert ([s[..i]] + rest)[1..] == rest;
      assert s == s[..i] + [c] + s[i + 1..];
    }
  }

  lemma {:induction false} SplitJoin(parts: seq<string>, c: char)
    requires parts != [] && forall i :: 0 <= i < |parts| ==> c !in parts[i]
    ensures Split(Join(parts, c), c) == parts
  {
    if |parts| > 1 {
      SplitJoin(parts[1..], c);
      SplitField(parts[0], c, Join(parts[1..], c));
      assert parts == [parts[0]] + parts[1..];
    } else {
      assert parts == [parts[0]];
    }
  }

  lemma Assoc<T>(a: seq<T>, b: seq<T>, c: seq<T>)
    ensures a + b + c == a + (b + c)
  {}

  /** A separator between two strings separates their fields. */
  lemma {:induction false} SplitAppend(a: string, c: char, b: string)
    ensures Split(a + [c] + b, c) == Split(a, c) + Split(b, c)
    decreases |a|
  {
    if c !in a {
      SplitField(a, c, b);
    } else {
      hide *;
      var first, rest := FirstField(a, c);
      SplitAppend(rest, c, b);
      SplitLonger(first, c, rest, b);
    }
  }

  lemma FirstField(a: string, c: char) returns (first: string, rest: string)
    requires c in a
    ensures c !in first && a == first + [c] + rest && |rest| < |a|
  {
    var i := IndexOf(a, c);
    first, rest := a[..i], a[i + 1..];
    assert a == first + [c] + rest;
  }

  lemma SplitLonger(first: string, c: char, rest: string, b: string)
    requires c !in first && Split(rest + [c] + b, c) == Split(rest, c) + Split(b, c)
    ensures var a := first + [c] + rest; Split(a + [c] + b, c) == Split(a, c) + Split(b, c)
  {
    hide *;
    SplitField(first, c, rest);
    SplitField(first, c, rest + [c] + b);
    Assoc(first + [c], rest, [c]);
    Assoc(first + [c], rest + [c], b);
    Assoc([first], Split(rest, c), Split(b, c));
  }

  /** Joining onto a string that may itself hold separators. */
  lemma SplitJoinAfter(a: string, parts: seq<string>, c: char)
    requires parts != [] && forall i :: 0 <= i < |parts| ==> c !in parts[i]
    ensures Split(Join([a] + parts, c), c) == Split(a, c) + parts
  {
    assert ([a] + parts)[1..] == parts;
    assert Join([a] + parts, c) == a + [c] + Join(parts, c);
    hide *;
    SplitJoin(parts, c);
    SplitAppend(a, c, Join(parts, c));
  }

  lemma {:induction false} JoinAfter(a: seq<string>, b: seq<string>, c: char)
    requires a != [] && b != []
    ensures Join(a + b, c) == Join(a, c) + [c] + Join(b, c)
  {
    if |a| == 1 {
      assert (a + b)[1..] == b;
    } else {
      JoinAfter(a[1..], b, c);
      assert (a + b)[1..] == a[1..] + b;
    }
  }

  /** Joining in two steps. */
  lemma JoinJoined(a: seq<string>, b: seq<string>, c: char)
    requires a != [] && b != []
    ensures Join(a + b, c) == Join([Join(a, c)] + b, c)
  {
    JoinAfter(a, b, c);
    JoinAfter([Join(a, c)], b, c);
    assert Join([Join(a, c)], c) == Join(a, c);
  }
}
