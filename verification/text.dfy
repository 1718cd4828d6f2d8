/**
 * The handful of PHP string primitives the backend relies on, written out:
 * explode/implode on a one-character delimiter, strpos used as a substring
 * test, str_replace with an empty replacement, trim of one character and
 * the truthiness test empty().
 */
module Text {
  import opened Wrappers

  /** PHP's empty() on a string: true for "" and for "0". */
  predicate IsPhpEmpty(s: string) {
    s == "" || s == "0"
  }

  /**
   * explode(d, s): the pieces of `s` between occurrences of `d`. There is always
   * at least one piece, and no piece contains the delimiter.
   */
  function Split(s: string, d: char): (parts: seq<string>)
    ensures |parts| >= 1
    ensures forall i :: 0 <= i < |parts| ==> d !in parts[i]
    decreases |s|
  {
    if |s| == 0 then [""]
    else
      var rest := Split(s[1..], d);
      if s[0] == d then [""] + rest
      else [[s[0]] + rest[0]] + rest[1..]
  }

  /** implode(d, parts): the pieces glued back with `d` between neighbours. */
  function Join(parts: seq<string>, d: char): string
    decreases |parts|
  {
    if |parts| == 0 then ""
    else if |parts| == 1 then parts[0]
    else parts[0] + [d] + Join(parts[1..], d)
  }

  /** Gluing the pieces of a split gives back the original text. */
  lemma {:induction false} JoinSplit(s: string, d: char)
    ensures Join(Split(s, d), d) == s
    decreases |s|
  {
    if |s| > 0 {
      JoinSplit(s[1..], d);
      var rest := Split(s[1..], d);
      if s[0] == d {
        assert Split(s, d) == [""] + rest;
        assert s == [d] + s[1..];
      } else {
        assert s == [s[0]] + s[1..];
        if |rest| == 1 {
          assert Split(s, d) == [[s[0]] + rest[0]];
        } else {
          assert Split(s, d)[1..] == rest[1..];
          assert Join(rest, d) == rest[0] + [d] + Join(rest[1..], d);
        }
      }
    }
  }

  /** Splitting a text with one more delimiter in it splits at that delimiter. */
  lemma {:induction false} SplitConcat(a: string, b: string, d: char)
    ensures Split(a + [d] + b, d) == Split(a, d) + Split(b, d)
    decreases |a|
  {
    if |a| == 0 {
      assert a + [d] + b == [d] + b;
      SplitCons(d, b, d);
    } else {
      SplitConcat(a[1..], b, d);
      SplitConcatStep(a[0], a[1..], b, d);
      assert a == [a[0]] + a[1..];
    }
  }

  lemma SplitConcatStep(c: char, a: string, b: string, d: char)
    requires Split(a + [d] + b, d) == Split(a, d) + Split(b, d)
    ensures Split([c] + a + [d] + b, d) == Split([c] + a, d) + Split(b, d)
  {
    var t := a + [d] + b;
    assert [c] + a + [d] + b == [c] + t;
    SplitCons(c, t, d);
    SplitCons(c, a, d);
    ExtendFirst(if c == d then None else Some([c]), Split(a, d), Split(b, d));
  }

  /**
   * The sequence algebra behind one explode step: either a new empty piece is
   * put in front, or the first piece is extended at its front; either way the
   * pieces that follow are untouched.
   */
  lemma ExtendFirst(front: Option<string>, ra: seq<string>, rb: seq<string>)
    requires |ra| >= 1
    ensures Step(front, ra + rb) == Step(front, ra) + rb
  {
    if front.Some? {
      assert (ra + rb)[0] == ra[0];
      assert (ra + rb)[1..] == ra[1..] + rb;
    }
  }

  function Step(front: Option<string>, rest: seq<string>): seq<string>
    requires |rest| >= 1
  {
    match front
    case None => [""] + rest
    case Some(p) => [p + rest[0]] + rest[1..]
  }

  /** One step of explode: how the first character extends the pieces of the rest. */
  lemma SplitCons(c: char, t: string, d: char)
    ensures Split([c] + t, d) == Step(if c == d then None else Some([c]), Split(t, d))
  {
    assert ([c] + t)[1..] == t;
  }

  /** Splitting glued pieces that hold no delimiter gives back the pieces. */
  lemma {:induction false} SplitJoin(parts: seq<string>, d: char)
    requires |parts| >= 1
    requires forall i :: 0 <= i < |parts| ==> d !in parts[i]
    ensures Split(Join(parts, d), d) == parts
    decreases |parts|
  {
    if |parts| == 1 {
      SplitFree(parts[0], d);
    } else {
      SplitJoin(parts[1..], d);
      SplitFree(parts[0], d);
      SplitConcat(parts[0], Join(parts[1..], d), d);
      assert parts == [parts[0]] + parts[1..];
    }
  }

  /** A text without the delimiter splits into itself. */
  lemma {:induction false} SplitFree(s: string, d: char)
    requires d !in s
    ensures Split(s, d) == [s]
    decreases |s|
  {
    if |s| > 0 {
      SplitFree(s[1..], d);
      assert s == [s[0]] + s[1..];
    }
  }

  /** strpos(hay, needle) !== false: `needle` occurs somewhere in `hay`. */
  predicate Contains(hay: string, needle: string)
    decreases |hay|
  {
    needle <= hay || (|hay| > 0 && Contains(hay[1..], needle))
  }

  /** Contains holds exactly when the needle starts at some position of the haystack. */
  lemma {:induction false} ContainsAt(hay: string, needle: string)
    ensures Contains(hay, needle) <==> exists i :: 0 <= i <= |hay| && needle <= hay[i..]
    decreases |hay|
  {
    if |hay| > 0 {
      ContainsAt(hay[1..], needle);
      assert hay[0..] == hay;
      forall i | 1 <= i <= |hay|
        ensures hay[i..] == hay[1..][i - 1..]
      {
      }
      if exists i :: 0 <= i <= |hay| && needle <= hay[i..] {
        var i :| 0 <= i <= |hay| && needle <= hay[i..];
        if i > 0 {
          assert needle <= hay[1..][i - 1..];
        }
      }
    } else {
      if exists i :: 0 <= i <= |hay| && needle <= hay[i..] {
        var i :| 0 <= i <= |hay| && needle <= hay[i..];
        assert i == 0 && hay[i..] == hay;
      }
    }
  }

  /** Containment is transitive: a text inside a text inside `hay` is inside `hay`. */
  lemma ContainsTransitive(hay: string, mid: string, needle: string)
    requires Contains(hay, mid) && Contains(mid, needle)
    ensures Contains(hay, needle)
  {
    ContainsAt(hay, mid);
    ContainsAt(mid, needle);
    var i :| 0 <= i <= |hay| && mid <= hay[i..];
    var j :| 0 <= j <= |mid| && needle <= mid[j..];
    assert needle <= hay[i + j..] by {
      forall k | 0 <= k < |needle| ensures needle[k] == hay[i + j..][k] {
        assert needle[k] == mid[j + k] == hay[i..][j + k];
      }
    }
    ContainsAt(hay, needle);
  }

  /**
   * str_replace(pat, "", s): deletes every non-overlapping occurrence of `pat`,
   * scanning left to right, without rescanning the text it has produced.
   */
  function RemoveAll(s: string, pat: string): (r: string)
    requires |pat| > 0
    ensures |r| <= |s|
    decreases |s|
  {
    if |s| == 0 then ""
    else if pat <= s then RemoveAll(s[|pat|..], pat)
    else [s[0]] + RemoveAll(s[1..], pat)
  }

  /**
   * When `pat` does not start anywhere inside `stem` (not even reaching into
   * the appended copy of `pat`), deleting `pat` from `stem + pat` leaves `stem`.
   */
  lemma {:induction false} RemoveAllStripsSuffix(stem: string, pat: string)
    requires |pat| > 0
    requires forall i :: 0 <= i < |stem| ==> !(pat <= (stem + pat)[i..])
    ensures RemoveAll(stem + pat, pat) == stem
    decreases |stem|
  {
    if |stem| == 0 {
      assert stem + pat == pat;
      assert pat[|pat|..] == "";
    } else {
      var s := stem + pat;
      assert s[0..] == s;
      assert !(pat <= s);
      assert s[1..] == stem[1..] + pat;
      forall i | 0 <= i < |stem[1..]|
        ensures !(pat <= (stem[1..] + pat)[i..])
      {
        assert (stem[1..] + pat)[i..] == s[i + 1..];
      }
      RemoveAllStripsSuffix(stem[1..], pat);
    }
  }

  /** trim(s, c): `s` without the leading and trailing runs of `c`. */
  function Trim(s: string, c: char): (r: string)
    ensures |r| > 0 ==> r[0] != c && r[|r| - 1] != c
    ensures exists i, j :: 0 <= i <= j <= |s| && r == s[i..j]
                          && (forall k :: 0 <= k < i ==> s[k] == c)
                          && (forall k :: j <= k < |s| ==> s[k] == c)
  {
    var i := Leading(s, c);
    var j := |s| - Trailing(s[i..], c);
    assert forall k :: j <= k < |s| ==> s[k] == s[i..][k - i];
    s[i..j]
  }

  /** The length of the run of `c` that starts `s`. */
  function Leading(s: string, c: char): (n: nat)
    ensures n <= |s|
    ensures forall k :: 0 <= k < n ==> s[k] == c
    ensures n < |s| ==> s[n] != c
    decreases |s|
  {
    if |s| > 0 && s[0] == c then
      var n := 1 + Leading(s[1..], c);
      assert forall k :: 1 <= k < n ==> s[k] == s[1..][k - 1];
      n
    else 0
  }

  /** The length of the run of `c` that ends `s`. */
  function Trailing(s: string, c: char): (n: nat)
    ensures n <= |s|
    ensures forall k :: |s| - n <= k < |s| ==> s[k] == c
    ensures n < |s| ==> s[|s| - n - 1] != c
    decreases |s|
  {
    if |s| > 0 && s[|s| - 1] == c then
      var n := 1 + Trailing(s[..|s| - 1], c);
      assert forall k :: |s| - n <= k < |s| - 1 ==> s[k] == s[..|s| - 1][k];
      n
    else 0
  }
}
