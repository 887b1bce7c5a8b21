/** Splitting text at a separator and joining the parts again, and the length that JavaScript gives a text. */
module Text {
  /** The length of a text in UTF-16 code units. */
  function Units(s: string): (n: nat)
    ensures n >= |s|
  {
    if s == "" then 0 else (if s[0] as int < 0x10000 then 1 else 2) + Units(s[1..])
  }

  function Join(parts: seq<string>, separator: char): string
    decreases |parts|
  {
    if parts == [] then ""
    else if |parts| == 1 then parts[0]
    else parts[0] + [separator] + Join(parts[1..], separator)
  }

  /** The part before the first separator. */
  function Head(s: string, separator: char): (head: string)
    ensures separator !in head && |head| <= |s|
    ensures s[..|head|] == head
    ensures |head| < |s| ==> s[|head|] == separator
  {
    if s == "" || s[0] == separator then "" else [s[0]] + Head(s[1..], separator)
  }

  function Split(s: string, separator: char): (parts: seq<string>)
    ensures |parts| > 0
    decreases |s|
  {
    var head := Head(s, separator);
    if |head| == |s| then [head] else [head] + Split(s[|head| + 1..], separator)
  }

  lemma {:induction false} HeadOf(a: string, b: string, separator: char)
    requires separator !in a && (b == "" || b[0] == separator)
    ensures Head(a + b, separator) == a
  {
    if a == "" {
      assert a + b == b;
    } else {
      assert a[0] in a;
      HeadOf(a[1..], b, separator);
      assert (a + b)[1..] == a[1..] + b;
    }
  }

  /** Splitting peels off a first part that holds no separator. */
  lemma SplitFirst(a: string, rest: string, separator: char)
    requires separator !in a
    ensures Split(a, separator) == [a]
    ensures Split(a + [separator] + rest, separator) == [a] + Split(rest, separator)
  {
    var s := a + [separator] + rest;
    HeadOf(a, "", separator);
    assert a + "" == a;
    HeadOf(a, [separator] + rest, separator);
    assert s == a + ([separator] + rest);
    assert s[|a| + 1..] == rest;
  }

  lemma {:induction false} SplitJoin(parts: seq<string>, separator: char)
    requires |parts| > 0 && forall i | 0 <= i < |parts| :: separator !in parts[i]
    ensures Split(Join(parts, separator), separator) == parts
    decreases |parts|
  {
    hide Split, Head;
    if |parts| == 1 {
      SplitFirst(parts[0], "", separator);
    } else {
      SplitFirst(parts[0], Join(parts[1..], separator), separator);
      SplitJoin(parts[1..], separator);
    }
  }

  lemma {:induction false} JoinSplit(s: string, separator: char)
    ensures Join(Split(s, separator), separator) == s
    ensures forall i | 0 <= i < |Split(s, separator)| :: separator !in Split(s, separator)[i]
    decreases |s|
  {
    var head := Head(s, separator);
    if |head| < |s| {
      JoinSplit(s[|head| + 1..], separator);
      assert Split(s, separator)[1..] == Split(s[|head| + 1..], separator);
      assert s == head + [separator] + s[|head| + 1..];
    }
  }
}
