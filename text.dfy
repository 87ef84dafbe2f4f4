/**
 * The two string operations the style helper is built from, as JavaScript
 * defines them for a one-character separator:
 *   - `s.split(' ')`, which keeps every empty piece (a leading, trailing or
 *     doubled space yields an empty string) and never returns an empty array;
 *   - `parts.join(' ')`, which puts exactly one space between neighbours.
 * Split and Join are each other's inverse, and the number of pieces is tied
 * to the number of spaces.
 */
module Text {

  const Space: char := ' '

  predicate SpaceFree(s: string) {
    Space !in s
  }

  /** Number of space characters in `s`. */
  function CountSpaces(s: string): (n: nat)
    ensures n <= |s|
    ensures n == 0 <==> SpaceFree(s)
  {
    if s == [] then 0
    else (if s[0] == Space then 1 else 0) + CountSpaces(s[1..])
  }

  /** Total number of spaces inside all of `parts`. */
  function SumSpaces(parts: seq<string>): nat {
    if parts == [] then 0 else CountSpaces(parts[0]) + SumSpaces(parts[1..])
  }

  /** Puts character `c` in front of the pieces `r` of a split: a space starts a new,
      empty first piece; any other character extends the first piece. */
  function PushChar(c: char, r: seq<string>): seq<string>
    requires |r| >= 1
  {
    if c == Space then [""] + r else [[c] + r[0]] + r[1..]
  }

  /** `s.split(' ')`: the maximal space-free pieces of `s`, empty ones included. */
  function Split(s: string): (r: seq<string>)
    ensures |r| >= 1
    ensures forall i :: 0 <= i < |r| ==> SpaceFree(r[i])
  {
    if s == [] then [""] else PushChar(s[0], Split(s[1..]))
  }

  /** Pushing a character only touches the first piece. */
  lemma PushCharAppend(c: char, r: seq<string>, q: seq<string>)
    requires |r| >= 1
    ensures PushChar(c, r + q) == PushChar(c, r) + q
  {
    if c != Space {
      assert (r + q)[0] == r[0];
      assert (r + q)[1..] == r[1..] + q;
    }
  }

  /** `parts.join(' ')`; the empty array joins to the empty string. */
  function Join(parts: seq<string>): string {
    if |parts| == 0 then ""
    else if |parts| == 1 then parts[0]
    else parts[0] + [Space] + Join(parts[1..])
  }

  lemma JoinCons(p: string, parts: seq<string>)
    requires |parts| >= 1
    ensures Join([p] + parts) == p + [Space] + Join(parts)
  {
  }

  lemma {:induction false} CountSpacesConcat(a: string, b: string)
    ensures CountSpaces(a + b) == CountSpaces(a) + CountSpaces(b)
  {
    if a != [] {
      assert (a + b)[0] == a[0];
      assert (a + b)[1..] == a[1..] + b;
      CountSpacesConcat(a[1..], b);
    } else {
      assert a + b == b;
    }
  }

  /** Prepending a character to the first piece prepends it to the join. */
  lemma JoinExtendHead(c: char, parts: seq<string>)
    requires |parts| >= 1
    ensures Join([[c] + parts[0]] + parts[1..]) == [c] + Join(parts)
  {
  }

  /** Splitting then joining gives back the original string. */
  lemma {:induction false} JoinSplit(s: string)
    ensures Join(Split(s)) == s
  {
    if s != [] {
      var rest := Split(s[1..]);
      JoinSplit(s[1..]);
      if s[0] == Space {
        JoinCons("", rest);
      } else {
        JoinExtendHead(s[0], rest);
      }
    }
  }

  /** One split piece per space, plus one. */
  lemma {:induction false} SplitCount(s: string)
    ensures |Split(s)| == CountSpaces(s) + 1
  {
    if s != [] {
      SplitCount(s[1..]);
    }
  }

  /** A space-free string is one piece. */
  lemma {:induction false} SplitWord(w: string)
    requires SpaceFree(w)
    ensures Split(w) == [w]
  {
    if w != [] {
      assert SpaceFree(w[1..]) by { assert forall i :: 0 <= i < |w[1..]| ==> w[1..][i] == w[i + 1]; }
      SplitWord(w[1..]);
      assert [w[0]] + w[1..] == w;
    }
  }

  /** A space splits a string into the pieces of its two sides. */
  lemma {:induction false} SplitAtSpace(a: string, t: string)
    ensures Split(a + [Space] + t) == Split(a) + Split(t)
  {
    var s := a + [Space] + t;
    if a == [] {
      assert s[0] == Space && s[1..] == t;
    } else {
      assert s[0] == a[0];
      assert s[1..] == a[1..] + [Space] + t;
      SplitAtSpace(a[1..], t);
      PushCharAppend(a[0], Split(a[1..]), Split(t));
    }
  }

  /** Two consecutive spaces leave an empty piece between the pieces of the two sides. */
  lemma SplitDoubleSpace(a: string, b: string)
    ensures Split(a + "  " + b) == Split(a) + [""] + Split(b)
  {
    assert a + "  " + b == a + [Space] + ([Space] + b);
    SplitAtSpace(a, [Space] + b);
    assert [Space] + b == [] + [Space] + b;
    SplitAtSpace([], b);
  }

  /** Three space-free words separated by single spaces split into exactly those words. */
  lemma SplitThreeWords(a: string, b: string, c: string)
    requires SpaceFree(a) && SpaceFree(b) && SpaceFree(c)
    ensures Split(a + " " + b + " " + c) == [a, b, c]
  {
    var bc := b + [Space] + c;
    assert Split(bc) == [b, c] by {
      SplitAtSpace(b, c);
      SplitWord(b);
      SplitWord(c);
    }
    assert a + " " + b + " " + c == a + [Space] + bc;
    SplitAtSpace(a, bc);
    SplitWord(a);
    assert Split(a + [Space] + bc) == [a] + [b, c];
  }

  /** Splitting then joining space-free pieces gives back the pieces. */
  lemma {:induction false} SplitJoin(parts: seq<string>)
    requires |parts| >= 1
    requires forall i :: 0 <= i < |parts| ==> SpaceFree(parts[i])
    ensures Split(Join(parts)) == parts
  {
    if |parts| == 1 {
      SplitWord(parts[0]);
    } else {
      SplitJoin(parts[1..]);
      SplitWord(parts[0]);
      SplitAtSpace(parts[0], Join(parts[1..]));
      assert [parts[0]] + parts[1..] == parts;
    }
  }

  /** A join of n pieces adds exactly n - 1 spaces to those inside the pieces. */
  lemma {:induction false} JoinCount(parts: seq<string>)
    requires |parts| >= 1
    ensures CountSpaces(Join(parts)) == |parts| - 1 + SumSpaces(parts)
  {
    if |parts| > 1 {
      JoinCount(parts[1..]);
      CountSpacesConcat(parts[0] + [Space], Join(parts[1..]));
      CountSpacesConcat(parts[0], [Space]);
    }
  }

  /** A sequence of space-free pieces holds no spaces in all. */
  lemma {:induction false} SumSpacesFree(parts: seq<string>)
    requires forall i :: 0 <= i < |parts| ==> SpaceFree(parts[i])
    ensures SumSpaces(parts) == 0
  {
    if parts != [] {
      SumSpacesFree(parts[1..]);
    }
  }
}
