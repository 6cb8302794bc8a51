/** The string and byte operations of Rust's standard library that the viewer
    code uses, with the semantics of `str` on ASCII text: `starts_with`,
    `split`, `split_once`, `rsplit` and `trim_start_matches`. */
module Text {
  import opened Wrappers

  type byte = b: int | 0 <= b < 256

  /** The bytes of an ASCII string (`str::as_bytes`). */
  function Ascii(s: string): (r: seq<byte>)
    requires forall i :: 0 <= i < |s| ==> s[i] as int < 256
    ensures |r| == |s| && forall i :: 0 <= i < |s| ==> r[i] == s[i] as int
  {
    seq(|s|, i requires 0 <= i < |s| => s[i] as int)
  }

  /** `s.starts_with(p)`. */
  predicate StartsWith<T(==)>(s: seq<T>, p: seq<T>) {
    p <= s
  }

  // ---------------------------------------------------------------------------
  // split(pat).next(): the text before the first occurrence of a pattern

  /** The first piece of `s.split(pat)`: everything before the first
      occurrence of `pat`, or all of `s` when there is none. */
  function BeforeFirst(s: string, pat: string): (r: string)
    requires |pat| > 0
    ensures r <= s
    ensures forall i :: 0 <= i < |r| ==> !(pat <= s[i..])
    ensures r != s ==> pat <= s[|r|..]
    decreases |s|
  {
    if pat <= s then ""
    else if s == [] then []
    else
      var rest := BeforeFirst(s[1..], pat);
      BeforeFirstStep(s, pat, rest);
      [s[0]] + rest
  }

  /** A piece before the first match of the tail extends, by the head, to a
      piece before the first match of the whole when the whole does not start
      with the pattern. */
  lemma BeforeFirstStep(s: string, pat: string, rest: string)
    requires s != [] && !(pat <= s)
    requires rest <= s[1..]
    requires forall i :: 0 <= i < |rest| ==> !(pat <= s[1..][i..])
    requires rest != s[1..] ==> pat <= s[1..][|rest|..]
    ensures [s[0]] + rest <= s
    ensures forall i :: 0 <= i < |[s[0]] + rest| ==> !(pat <= s[i..])
    ensures [s[0]] + rest != s ==> pat <= s[|[s[0]] + rest|..]
  {
    assert s == [s[0]] + s[1..];
    forall i | 1 <= i <= |rest|
      ensures s[i..] == s[1..][i - 1..]
    {
    }
  }

  // ---------------------------------------------------------------------------
  // rsplit(c): pieces taken from the right

  /** The first piece of `s.rsplit(c)`: the text after the last `c`, or all of
      `s` when there is none. */
  function AfterLast(s: string, c: char): (r: string)
    ensures |r| <= |s| && forall i :: 0 <= i < |r| ==> r[i] == s[|s| - |r| + i]
    ensures c !in r
    ensures |r| < |s| ==> s[|s| - |r| - 1] == c
  {
    if s == [] then []
    else if s[|s| - 1] == c then []
    else
      var rest := AfterLast(s[..|s| - 1], c);
      rest + [s[|s| - 1]]
  }

  /** When `c` occurs at `q`, the last piece starts after `q`. */
  lemma AfterLastSplits(s: string, c: char, q: nat)
    requires q < |s| && s[q] == c
    ensures q < |s| - |AfterLast(s, c)|
  {
  }

  /** The second piece of `s.rsplit(c)`: the text between the last two `c`s
      (or from the start to the only `c`); `None` when `s` has no `c`. */
  function SecondLast(s: string, c: char): (r: Option<string>)
    ensures r.None? <==> c !in s
    ensures r.Some? ==> c !in r.value
  {
    var last := AfterLast(s, c);
    if |last| == |s| then
      assert s == last;
      None
    else
      assert s[|s| - |last| - 1] == c;
      Some(AfterLast(s[..|s| - |last| - 1], c))
  }

  /** When `c` occurs, the second piece is the last piece of the text before
      the last `c`. */
  lemma SecondLastOfPrefix(s: string, c: char)
    requires c in s
    ensures |AfterLast(s, c)| < |s|
    ensures SecondLast(s, c) == Some(AfterLast(s[..|s| - |AfterLast(s, c)| - 1], c))
  {
    assert SecondLast(s, c).Some?;
  }

  /** In a string with a `//`, `rsplit(c)` yields at least two pieces, and
      the first two are the last two `c`-separated pieces of the string. */
  lemma LastTwoPieces(s: string, c: char, p: nat) returns (second: string, last: string)
    requires p + 1 < |s| && s[p] == c && s[p + 1] == c
    ensures last == AfterLast(s, c) && SecondLast(s, c) == Some(second)
    ensures c !in second && c !in last
    ensures |second| + 1 + |last| < |s|
  {
    last := AfterLast(s, c);
    AfterLastSplits(s, c, p + 1);
    var rest := s[..|s| - |last| - 1];
    second := AfterLast(rest, c);
    SecondLastOfPrefix(s, c);
    assert rest[p] == c;
    AfterLastSplits(rest, c, p);
  }

  /** The last two pieces of `rsplit(c)`, each after its `c`, end the text. */
  lemma TwoSeparators(s: string, c: char, second: string, last: string)
    requires last == AfterLast(s, c) && SecondLast(s, c) == Some(second)
    requires |second| + 1 + |last| < |s|
    ensures s[|s| - |second| - |last| - 2..] == [c] + second + [c] + last
  {
    var cut := |s| - |last| - 1;
    assert s[cut - |second| - 1] == c && forall i :: 0 <= i < |second| ==> second[i] == s[cut - |second| + i] by {
      SecondLastOfPrefix(s, c);
      PieceOfPrefix(s, c, cut, second);
    }
    assert s[cut] == c && forall i :: 0 <= i < |last| ==> last[i] == s[|s| - |last| + i] by {
      assert s[..|s|] == s;
      PieceOfPrefix(s, c, |s|, last);
    }
    SeparatedTail(s, c, cut, second, last);
  }

  /** The last piece of `s[..cut]`, read back in `s`. */
  lemma PieceOfPrefix(s: string, c: char, cut: nat, piece: string)
    requires cut <= |s| && piece == AfterLast(s[..cut], c) && |piece| < cut
    ensures s[cut - |piece| - 1] == c
    ensures forall i :: 0 <= i < |piece| ==> piece[i] == s[cut - |piece| + i]
  {
    var rest := s[..cut];
    assert rest[cut - |piece| - 1] == c;
    forall i | 0 <= i < |piece|
      ensures piece[i] == s[cut - |piece| + i]
    {
      assert piece[i] == rest[cut - |piece| + i];
    }
  }

  /** Two pieces, each read back in `s` right after a `c`, the second ending
      at that of the last. */
  lemma SeparatedTail(s: string, c: char, cut: nat, second: string, last: string)
    requires cut == |s| - |last| - 1 && |second| < cut && s[cut] == c
    requires s[cut - |second| - 1] == c
    requires forall i :: 0 <= i < |second| ==> second[i] == s[cut - |second| + i]
    requires forall i :: 0 <= i < |last| ==> last[i] == s[|s| - |last| + i]
    ensures s[|s| - |second| - |last| - 2..] == [c] + second + [c] + last
  {
    var k := cut - |second| - 1;
    var tail := [c] + second + [c] + last;
    forall i | 0 <= i < |tail|
      ensures s[k + i] == tail[i]
    {
      if i == 0 {
      } else if i <= |second| {
        assert tail[i] == second[i - 1];
      } else if i == |second| + 1 {
      } else {
        assert tail[i] == last[i - |second| - 2];
      }
    }
  }

  // ---------------------------------------------------------------------------
  // split(c): all pieces

  /** `s.split(c)`: the pieces between consecutive `c`s; there is always at
      least one piece, and the empty string gives one empty piece. */
  function SplitOn(s: string, c: char): (r: seq<string>)
    ensures |r| >= 1
    ensures forall i :: 0 <= i < |r| ==> c !in r[i]
  {
    if s == [] then [""]
    else
      var rest := SplitOn(s[1..], c);
      if s[0] == c then [""] + rest else [[s[0]] + rest[0]] + rest[1..]
  }

  /** `pieces.join(c)`. */
  function Join(pieces: seq<string>, c: char): string
    requires |pieces| >= 1
  {
    if |pieces| == 1 then pieces[0] else pieces[0] + [c] + Join(pieces[1..], c)
  }

  /** Splitting loses nothing: joining the pieces back gives the string. */
  lemma {:induction false} JoinSplitOn(s: string, c: char)
    ensures Join(SplitOn(s, c), c) == s
  {
    if s != [] {
      var rest := SplitOn(s[1..], c);
      JoinSplitOn(s[1..], c);
      if s[0] != c {
        if |rest| == 1 {
          assert SplitOn(s, c) == [[s[0]] + rest[0]];
        } else {
          assert SplitOn(s, c)[1..] == rest[1..];
          assert Join(SplitOn(s, c), c) == [s[0]] + rest[0] + [c] + Join(rest[1..], c);
        }
      }
    }
  }

  // ---------------------------------------------------------------------------
  // split_once(c)

  /** `s.split_once(c)`: the text before and after the first `c`. */
  function SplitOnce(s: string, c: char): (r: Option<(string, string)>)
    ensures r.None? <==> c !in s
    ensures r.Some? ==> c !in r.value.0 && s == r.value.0 + [c] + r.value.1
  {
    if s == [] then None
    else if s[0] == c then Some(("", s[1..]))
    else match SplitOnce(s[1..], c)
      case None => None
      case Some(kv) => Some(([s[0]] + kv.0, kv.1))
  }

  // ---------------------------------------------------------------------------
  // trim_start_matches(c)

  /** `s.trim_start_matches(c)`: `s` without its leading run of `c`s. */
  function TrimStart(s: string, c: char): (r: string)
    ensures |r| <= |s| && r == s[|s| - |r|..]
    ensures r == [] || r[0] != c
    ensures forall i :: 0 <= i < |s| - |r| ==> s[i] == c
  {
    if s != [] && s[0] == c then TrimStart(s[1..], c) else s
  }

  // ---------------------------------------------------------------------------
  // Counting

  function CountOf(s: string, c: char): (r: nat)
    ensures r <= |s|
    ensures r == 0 <==> c !in s
  {
    if s == [] then 0 else CountOf(s[..|s| - 1], c) + (if s[|s| - 1] == c then 1 else 0)
  }

  lemma {:induction false} CountOfAppend(a: string, b: string, c: char)
    ensures CountOf(a + b, c) == CountOf(a, c) + CountOf(b, c)
  {
    if b == [] {
      assert a + b == a;
    } else {
      assert (a + b)[..|a + b| - 1] == a + b[..|b| - 1];
      CountOfAppend(a, b[..|b| - 1], c);
    }
  }
}
