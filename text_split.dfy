/** `str::split` with a `char` pattern, as both configuration programs call it
    (`split(',')`): the segments between successive occurrences of the
    separator, in order, empty segments included. The separator's occurrences
    are cut out; nothing else is dropped, so joining the segments back with
    the separator gives the input again, and the split of the empty string is
    one empty segment, never no segment. */
module TextSplit {

  /** Number of occurrences of `c` in `s`. */
  function Occurrences(s: string, c: char): nat
  {
    if s == [] then 0 else (if s[0] == c then 1 else 0) + Occurrences(s[1..], c)
  }

  /** The segments of `s`, where `cur` is the part of the current segment that
      was read before `s`. Reading a separator closes the current segment;
      reaching the end closes the last one. */
  function SplitFrom(s: string, sep: char, cur: string): seq<string>
    decreases |s|
  {
    if s == [] then [cur]
    else if s[0] == sep then [cur] + SplitFrom(s[1..], sep, "")
    else SplitFrom(s[1..], sep, cur + [s[0]])
  }

  /** `s.split(sep)`, collected into a vector: one segment more than there
      are separators, none of them containing the separator, and together
      with the separators they make up `s`. */
  function Split(s: string, sep: char): (r: seq<string>)
    ensures |r| == Occurrences(s, sep) + 1
    ensures SeparatorFree(r, sep)
    ensures Join(r, sep) == s
  {
    SplitFromCount(s, sep, "");
    SplitFromSeparatorFree(s, sep, "");
    JoinSplitFrom(s, sep, "");
    SplitFrom(s, sep, "")
  }

  /** The inverse of `Split`: the segments glued back together, one separator
      between each two neighbours. */
  function Join(segs: seq<string>, sep: char): string
    requires |segs| >= 1
    decreases |segs|
  {
    if |segs| == 1 then segs[0] else segs[0] + [sep] + Join(segs[1..], sep)
  }

  /** No segment contains the separator. */
  ghost predicate SeparatorFree(segs: seq<string>, sep: char)
  {
    forall i :: 0 <= i < |segs| ==> sep !in segs[i]
  }

  lemma {:induction false} SplitFromCount(s: string, sep: char, cur: string)
    ensures |SplitFrom(s, sep, cur)| == Occurrences(s, sep) + 1
    decreases |s|
  {
    if s == [] {
    } else if s[0] == sep {
      SplitFromCount(s[1..], sep, "");
    } else {
      SplitFromCount(s[1..], sep, cur + [s[0]]);
    }
  }

  /** There is one segment more than there are separators; in particular the
      split never yields an empty list, not even for the empty string. */
  lemma SplitCount(s: string, sep: char)
    ensures |Split(s, sep)| == Occurrences(s, sep) + 1
    ensures |Split(s, sep)| >= 1
  {
  }

  /** The empty string splits into exactly one segment, the empty string. */
  lemma SplitEmpty(sep: char)
    ensures Split("", sep) == [""]
  {
  }

  lemma {:induction false} SplitFromSeparatorFree(s: string, sep: char, cur: string)
    requires sep !in cur
    ensures SeparatorFree(SplitFrom(s, sep, cur), sep)
    decreases |s|
  {
    if s == [] {
    } else if s[0] == sep {
      SplitFromSeparatorFree(s[1..], sep, "");
    } else {
      SplitFromSeparatorFree(s[1..], sep, cur + [s[0]]);
    }
  }

  /** The separator never ends up inside a segment. */
  lemma SplitSeparatorFree(s: string, sep: char)
    ensures SeparatorFree(Split(s, sep), sep)
  {
  }

  lemma {:induction false} JoinSplitFrom(s: string, sep: char, cur: string)
    ensures |SplitFrom(s, sep, cur)| >= 1
    ensures Join(SplitFrom(s, sep, cur), sep) == cur + s
    decreases |s|
  {
    SplitFromCount(s, sep, cur);
    if s == [] {
    } else if s[0] == sep {
      var tail := SplitFrom(s[1..], sep, "");
      JoinSplitFrom(s[1..], sep, "");
      assert ([cur] + tail)[1..] == tail;
      assert cur + [sep] + s[1..] == cur + s;
    } else {
      JoinSplitFrom(s[1..], sep, cur + [s[0]]);
      assert cur + [s[0]] + s[1..] == cur + s;
    }
  }

  /** Nothing but the separators is lost: joining the segments restores the
      input. */
  lemma JoinSplit(s: string, sep: char)
    ensures |Split(s, sep)| >= 1
    ensures Join(Split(s, sep), sep) == s
  {
  }

  /** Reading a separator-free stretch only extends the current segment. */
  lemma {:induction false} SplitFromFreePrefix(a: string, t: string, sep: char, cur: string)
    requires sep !in a
    ensures SplitFrom(a + t, sep, cur) == SplitFrom(t, sep, cur + a)
    decreases |a|
  {
    if a == [] {
      assert a + t == t;
      assert cur + a == cur;
    } else {
      assert (a + t)[0] == a[0];
      assert (a + t)[1..] == a[1..] + t;
      SplitFromFreePrefix(a[1..], t, sep, cur + [a[0]]);
      assert cur + [a[0]] + a[1..] == cur + a;
    }
  }

  lemma {:induction false} SplitFromJoin(segs: seq<string>, sep: char, cur: string)
    requires |segs| >= 1
    requires SeparatorFree(segs, sep)
    ensures SplitFrom(Join(segs, sep), sep, cur) == [cur + segs[0]] + segs[1..]
    decreases |segs|
  {
    if |segs| == 1 {
      SplitFromFreePrefix(segs[0], "", sep, cur);
      assert segs[0] + "" == segs[0];
    } else {
      var rest := Join(segs[1..], sep);
      assert sep !in segs[0];
      assert Join(segs, sep) == segs[0] + ([sep] + rest);
      SplitFromFreePrefix(segs[0], [sep] + rest, sep, cur);
      assert ([sep] + rest)[1..] == rest;
      SplitFromJoin(segs[1..], sep, "");
      assert "" + segs[1..][0] == segs[1];
      assert [segs[1]] + segs[2..] == segs[1..];
    }
  }

  /** The other direction of the round trip: separator-free segments, joined
      and split again, come back unchanged. Together with `JoinSplit` this
      says `Split` is a bijection between strings and non-empty lists of
      separator-free segments. */
  lemma SplitJoin(segs: seq<string>, sep: char)
    requires |segs| >= 1
    requires SeparatorFree(segs, sep)
    ensures Split(Join(segs, sep), sep) == segs
  {
    SplitFromJoin(segs, sep, "");
    assert "" + segs[0] == segs[0];
    assert [segs[0]] + segs[1..] == segs;
  }
}
