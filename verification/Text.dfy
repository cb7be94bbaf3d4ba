/** String searching, splitting and replacing, as in str.c.
    A `string` stands for a counted byte string; one `char` is one byte. */
module Text {

  /** `t` occurs in `s` at index `i`. */
  predicate OccursAt(s: string, t: string, i: int) {
    0 <= i && i + |t| <= |s| && s[i..i + |t|] == t
  }

  ghost predicate Contains(s: string, t: string) {
    exists i :: OccursAt(s, t, i)
  }

  datatype Located = NotFound | Found(index: nat)

  /** The first occurrence of a nonempty text at or after `from`. An empty text is never found. */
  function LocateFrom(s: string, t: string, from: nat): (r: Located)
    ensures r.Found? ==> t != "" && from <= r.index && OccursAt(s, t, r.index)
    ensures r.Found? ==> forall i :: from <= i < r.index ==> !OccursAt(s, t, i)
    ensures r.NotFound? && t != "" ==> forall i :: from <= i ==> !OccursAt(s, t, i)
    decreases |s| - from
  {
    if t == "" || from + |t| > |s| then NotFound
    else if OccursAt(s, t, from) then Found(from)
    else LocateFrom(s, t, from + 1)
  }

  function Locate(s: string, t: string): (r: Located) {
    LocateFrom(s, t, 0)
  }

  /** str_locate_text: scan forward comparing `|t|` bytes at each position. */
  method LocateText(s: string, t: string) returns (r: Located)
    ensures r == Locate(s, t)
  {
    if |t| == 0 || |t| > |s| {
      return NotFound;
    }
    var i := 0;
    while i <= |s| - |t|
      invariant 0 <= i <= |s| - |t| + 1
      invariant Locate(s, t) == LocateFrom(s, t, i)
    {
      if s[i..i + |t|] == t {
        return Found(i);
      }
      i := i + 1;
    }
    return NotFound;
  }

  /** str_locate_text_reverse: the last occurrence. */
  method LocateTextReverse(s: string, t: string) returns (r: Located)
    ensures r.Found? ==> t != "" && OccursAt(s, t, r.index)
    ensures r.Found? ==> forall i :: r.index < i ==> !OccursAt(s, t, i)
    ensures r.NotFound? <==> t == "" || !Contains(s, t)
  {
    if |t| == 0 || |t| > |s| {
      return NotFound;
    }
    var i := |s| - |t|;
    while true
      invariant 0 <= i <= |s| - |t|
      invariant forall j :: i < j ==> !OccursAt(s, t, j)
      decreases i
    {
      if s[i..i + |t|] == t {
        assert OccursAt(s, t, i);
        return Found(i);
      }
      if i == 0 {
        break;
      }
      i := i - 1;
    }
    return NotFound;
  }

  /** str_split_text: the text before and after the first occurrence; everything and "" if there is none. */
  function Split(s: string, t: string): (r: (string, string))
    ensures Locate(s, t).NotFound? ==> r == (s, "")
    ensures Locate(s, t).Found? ==> s == r.0 + t + r.1 && |r.0| == Locate(s, t).index
  {
    match Locate(s, t)
    case NotFound => (s, "")
    case Found(i) => (s[..i], s[i + |t|..])
  }

  /** Left-to-right, non-overlapping replacement of every occurrence of `from`. */
  function Replace(s: string, from: string, to: string): string
    decreases |s|
  {
    match Locate(s, from)
    case NotFound => s
    case Found(i) => s[..i] + to + Replace(s[i + |from|..], from, to)
  }

  lemma ReplaceStep(s: string, from: string, to: string)
    ensures var (lhs, rhs) := Split(s, from);
      if |lhs| < |s|
      then Replace(s, from, to) == lhs + to + Replace(rhs, from, to) && |rhs| < |s| && Replace("", from, to) == ""
      else Replace(s, from, to) == lhs && rhs == ""
  {
  }

  lemma Assoc(a: string, b: string, c: string, d: string)
    ensures a + (b + c + d) == a + b + c + d
  {
  }

  /** str_replace_text: split off one chunk at a time until nothing is left. */
  method ReplaceText(s: string, from: string, to: string) returns (out: string)
    ensures out == Replace(s, from, to)
  {
    var chunk := s;
    out := "";
    while true
      invariant Replace(s, from, to) == out + Replace(chunk, from, to)
      decreases |chunk|
    {
      ReplaceStep(chunk, from, to);
      var (lhs, rhs) := Split(chunk, from);
      if |lhs| < |chunk| {
        Assoc(out, lhs, to, Replace(rhs, from, to));
        out := out + lhs + to;
      } else {
        out := out + lhs;
      }
      if rhs == "" {
        return;
      }
      chunk := rhs;
    }
  }

  /** A replacement by a shorter text makes the whole shorter exactly when there is an occurrence, and
      changes nothing without one. */
  lemma {:induction false} ReplaceShrinks(s: string, from: string, to: string)
    requires |to| < |from|
    ensures |Replace(s, from, to)| <= |s|
    ensures |Replace(s, from, to)| == |s| <==> !Contains(s, from)
    ensures !Contains(s, from) ==> Replace(s, from, to) == s
    decreases |s|
  {
    match Locate(s, from)
    case NotFound =>
    case Found(i) =>
      ReplaceShrinks(s[i + |from|..], from, to);
      assert OccursAt(s, from, i);
  }

  /** str_replace_char: byte-for-byte substitution in place. */
  function ReplaceChar(s: string, from: char, to: char): (r: string)
    ensures |r| == |s|
    ensures forall i :: 0 <= i < |s| ==> r[i] == if s[i] == from then to else s[i]
  {
    seq(|s|, i requires 0 <= i < |s| => if s[i] == from then to else s[i])
  }
}
