/** The few Python `str` operations that the voice-spec parser is built from,
    stated over `seq<char>`: `s.replace(c, '')`, `s.split(c)`, `sep.join(pieces)`
    and the two halves of `s.partition(c)`. */
module PyStr {

  /** `s.replace(c, '')`: every occurrence of `c` deleted, the rest kept in order. */
  function RemoveAll(s: string, c: char): (r: string)
    ensures c !in r
  {
    if s == [] then []
    else if s[0] == c then RemoveAll(s[1..], c)
    else [s[0]] + RemoveAll(s[1..], c)
  }

  /** Deleting `c` keeps every other character that occurs. */
  lemma {:induction false} RemoveAllKeeps(s: string, c: char, x: char)
    requires x != c
    ensures x in RemoveAll(s, c) <==> x in s
    decreases |s|
  {
    if s != [] {
      RemoveAllKeeps(s[1..], c, x);
      assert s == [s[0]] + s[1..];
    }
  }

  /** Deleting keeps every other character as often as it occurs and drops every `c`. */
  lemma {:induction false} RemoveAllCounts(s: string, c: char)
    ensures multiset(RemoveAll(s, c)) == multiset(s)[c := 0]
    decreases |s|
  {
    if s != [] {
      assert s == [s[0]] + s[1..];
      RemoveAllCounts(s[1..], c);
    }
  }

  /** The text before the first `c` in `s` (all of `s` when there is none),
      the first component of `s.partition(c)`. */
  function Before(s: string, c: char): (r: string)
    ensures r <= s
    ensures c !in r
    ensures r == s || s[|r|] == c
  {
    if s == [] || s[0] == c then []
    else [s[0]] + Before(s[1..], c)
  }

  /** The text after the first `c` in `s`, the last component of `s.partition(c)`. */
  function After(s: string, c: char): (r: string)
    requires c in s
    ensures s == Before(s, c) + [c] + r
  {
    if s[0] == c then s[1..] else After(s[1..], c)
  }

  /** `s.split(c)`: the pieces between consecutive occurrences of `c`; empty
      pieces are kept, so `n` separators give `n + 1` pieces. */
  function Split(s: string, c: char): (r: seq<string>)
    ensures |r| >= 1 && r[0] == Before(s, c)
    decreases |s|
  {
    if c in s then [Before(s, c)] + Split(After(s, c), c) else [s]
  }

  /** `sep.join(pieces)`. */
  function Join(pieces: seq<string>, sep: string): string
  {
    if |pieces| == 0 then []
    else if |pieces| == 1 then pieces[0]
    else pieces[0] + sep + Join(pieces[1..], sep)
  }

  /** No piece of a split contains the separator. */
  lemma {:induction false} SplitPiecesExcludeSeparator(s: string, c: char)
    ensures forall i :: 0 <= i < |Split(s, c)| ==> c !in Split(s, c)[i]
    decreases |s|
  {
    if c in s {
      SplitPiecesExcludeSeparator(After(s, c), c);
    }
  }

  /** A character absent from `s` is absent from every piece of its split. */
  lemma {:induction false} SplitPiecesExclude(s: string, c: char, x: char)
    requires x !in s
    ensures forall i :: 0 <= i < |Split(s, c)| ==> x !in Split(s, c)[i]
    decreases |s|
  {
    if c in s {
      var a := After(s, c);
      assert s == Before(s, c) + [c] + a;
      assert x !in a;
      SplitPiecesExclude(a, c, x);
    }
  }

  /** The split has one piece more than there are separators in `s`. */
  lemma {:induction false} SplitCount(s: string, c: char)
    ensures |Split(s, c)| == multiset(s)[c] + 1
    decreases |s|
  {
    if c in s {
      var b, a := Before(s, c), After(s, c);
      SplitCount(a, c);
      assert multiset(s) == multiset(b) + multiset{c} + multiset(a);
    } else {
      assert multiset(s)[c] == 0;
    }
  }

  /** Joining the pieces of a split with the separator gives the input back. */
  lemma {:induction false} SplitJoin(s: string, c: char)
    ensures Join(Split(s, c), [c]) == s
    decreases |s|
  {
    if c in s {
      var a := After(s, c);
      SplitJoin(a, c);
    }
  }

  /** Splitting `a + [c] + b` at its first `c` gives back `a` and `b` when `a` has no `c`. */
  lemma {:induction false} BeforeAfterConcat(a: string, c: char, b: string)
    requires c !in a
    ensures c in a + [c] + b
    ensures Before(a + [c] + b, c) == a && After(a + [c] + b, c) == b
  {
    var s := a + [c] + b;
    assert s[|a|] == c;
    if a != [] {
      assert s[1..] == a[1..] + [c] + b;
      BeforeAfterConcat(a[1..], c, b);
    }
  }

  /** The split is the only way to cut `s` into separator-free pieces that
      join back to `s`. */
  lemma {:induction false} JoinSplit(pieces: seq<string>, c: char)
    requires |pieces| >= 1
    requires forall i :: 0 <= i < |pieces| ==> c !in pieces[i]
    ensures Split(Join(pieces, [c]), c) == pieces
    decreases |pieces|
  {
    if |pieces| > 1 {
      var rest := Join(pieces[1..], [c]);
      BeforeAfterConcat(pieces[0], c, rest);
      JoinSplit(pieces[1..], c);
    }
  }

  /** The text after the first `c` and before the second is the second piece of the split. */
  lemma SplitSecond(s: string, c: char)
    requires c in s
    ensures |Split(s, c)| >= 2 && Split(s, c)[1] == Before(After(s, c), c)
  {
  }

  /** `s.replace(c, '')` equals `''.join(s.split(c))`. */
  lemma {:induction false} RemoveAllIsJoinOfSplit(s: string, c: char)
    ensures RemoveAll(s, c) == Join(Split(s, c), [])
    decreases |s|
  {
    if c in s {
      var b, a := Before(s, c), After(s, c);
      assert s == b + ([c] + a);
      RemoveAllConcat(b, [c] + a, c);
      RemoveAllAbsent(b, c);
      assert ([c] + a)[0] == c && ([c] + a)[1..] == a;
      assert RemoveAll([c] + a, c) == RemoveAll(a, c);
      RemoveAllIsJoinOfSplit(a, c);
      assert Split(s, c) == [b] + Split(a, c);
      JoinCons(b, Split(a, c), []);
      assert b + [] == b;
    } else {
      RemoveAllAbsent(s, c);
    }
  }

  /** Joining a non-empty tail after a first piece. */
  lemma JoinCons(p: string, rest: seq<string>, sep: string)
    requires |rest| >= 1
    ensures Join([p] + rest, sep) == p + sep + Join(rest, sep)
  {
    assert ([p] + rest)[1..] == rest;
  }

  /** A character that is in no piece and is not the separator is not in the joined text. */
  lemma {:induction false} JoinExcludes(pieces: seq<string>, c: char, x: char)
    requires x != c
    requires forall i :: 0 <= i < |pieces| ==> x !in pieces[i]
    ensures x !in Join(pieces, [c])
    decreases |pieces|
  {
    if |pieces| > 1 {
      JoinExcludes(pieces[1..], c, x);
    }
  }

  /** Joining three pieces. */
  lemma JoinThree(a: string, b: string, c: string, sep: string)
    ensures Join([a, b, c], sep) == a + sep + b + sep + c
  {
    JoinCons(a, [b, c], sep);
    JoinCons(b, [c], sep);
    assert [a, b, c] == [a] + [b, c] && [b, c] == [b] + [c];
  }

  /** Deleting distributes over concatenation. */
  lemma {:induction false} RemoveAllConcat(s: string, t: string, c: char)
    ensures RemoveAll(s + t, c) == RemoveAll(s, c) + RemoveAll(t, c)
    decreases |s|
  {
    if s != [] {
      assert (s + t)[0] == s[0] && (s + t)[1..] == s[1..] + t;
      RemoveAllConcat(s[1..], t, c);
      if s[0] != c {
        assert RemoveAll(s + t, c) == [s[0]] + RemoveAll(s[1..] + t, c);
      }
    } else {
      assert s + t == t;
    }
  }

  /** Deleting a character that does not occur changes nothing. */
  lemma {:induction false} RemoveAllAbsent(s: string, c: char)
    requires c !in s
    ensures RemoveAll(s, c) == s
    decreases |s|
  {
    if s != [] {
      RemoveAllAbsent(s[1..], c);
    }
  }

  /** The two deletions at the head of the parser commute. */
  lemma {:induction false} RemoveAllCommutes(s: string, c: char, d: char)
    ensures RemoveAll(RemoveAll(s, c), d) == RemoveAll(RemoveAll(s, d), c)
    decreases |s|
  {
    if s != [] {
      RemoveAllCommutes(s[1..], c, d);
    }
  }
}
