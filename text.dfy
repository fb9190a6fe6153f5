/**
 * `Array.prototype.join` on strings, `String.prototype.split` on one character
 * as its inverse, and cutting a string at the first occurrence of a character.
 */
module Text {
  import opened Wrappers

  /** `ts.join(sep)`: the strings of `ts` with one `sep` between neighbours; `[]` joins to the empty string. */
  function Join(ts: seq<string>, sep: char): (s: string) {
    if ts == [] then []
    else if |ts| == 1 then ts[0]
    else ts[0] + [sep] + Join(ts[1..], sep)
  }

  /** `s.split(sep)`: the pieces between occurrences of `sep`; the empty string splits to one empty piece. */
  function Split(s: string, sep: char): (r: seq<string>)
    ensures |r| >= 1
    ensures forall i | 0 <= i < |r| :: sep !in r[i]
  {
    if s == [] then [[]]
    else
      var t := Split(s[1..], sep);
      if s[0] == sep then [[]] + t else [[s[0]] + t[0]] + t[1..]
  }

  /** A separator-free prefix sticks to the first piece. */
  lemma {:induction false} SplitPrefix(a: string, rest: string, sep: char)
    requires sep !in a
    ensures Split(a + rest, sep) == [a + Split(rest, sep)[0]] + Split(rest, sep)[1..]
    decreases |a|
  {
    if a == [] {
      assert a + rest == rest;
      assert [] + Split(rest, sep)[0] == Split(rest, sep)[0];
    } else {
      assert (a + rest)[1..] == a[1..] + rest;
      assert a[0] != sep;
      SplitPrefix(a[1..], rest, sep);
      assert [a[0]] + (a[1..] + Split(rest, sep)[0]) == a + Split(rest, sep)[0];
    }
  }

  /** `Split` is a left inverse of `Join` on non-empty lists of separator-free strings. */
  lemma {:induction false} SplitOfJoin(ts: seq<string>, sep: char)
    requires ts != []
    requires forall i | 0 <= i < |ts| :: sep !in ts[i]
    ensures Split(Join(ts, sep), sep) == ts
    decreases |ts|
  {
    if |ts| == 1 {
      SplitPrefix(ts[0], [], sep);
      assert ts[0] + [] == ts[0];
    } else {
      var tail := Join(ts[1..], sep);
      SplitOfJoin(ts[1..], sep);
      assert ts[0] + [sep] + tail == ts[0] + ([sep] + tail);
      SplitPrefix(ts[0], [sep] + tail, sep);
      assert ([sep] + tail)[1..] == tail;
      assert Split([sep] + tail, sep) == [[]] + ts[1..];
      assert ts[0] + [] == ts[0];
      assert [ts[0]] + ts[1..] == ts;
    }
  }

  /** A join has only characters that its parts and its separator have. */
  lemma {:induction false} JoinChars(ts: seq<string>, sep: char, p: char -> bool)
    requires forall i, j | 0 <= i < |ts| && 0 <= j < |ts[i]| :: p(ts[i][j])
    requires p(sep)
    ensures forall k | 0 <= k < |Join(ts, sep)| :: p(Join(ts, sep)[k])
    decreases |ts|
  {
    if |ts| > 1 {
      var tail := Join(ts[1..], sep);
      forall i, j | 0 <= i < |ts[1..]| && 0 <= j < |ts[1..][i]| ensures p(ts[1..][i][j]) {
        assert ts[1..][i] == ts[i + 1];
      }
      JoinChars(ts[1..], sep, p);
      var s := ts[0] + [sep] + tail;
      forall k | 0 <= k < |s| ensures p(s[k]) {
        if k < |ts[0]| {
          assert s[k] == ts[0][k];
        } else if k == |ts[0]| {
          assert s[k] == sep;
        } else {
          assert s[k] == tail[k - |ts[0]| - 1];
        }
      }
    } else if |ts| == 1 {
      assert forall k | 0 <= k < |ts[0]| :: p(ts[0][k]);
    }
  }

  /** The text before and after the first `sep` in `s`, or None when `s` has no `sep`. */
  function SplitFirst(s: string, sep: char): (r: Option<(string, string)>)
    ensures r.None? <==> sep !in s
    ensures r.Some? ==> s == r.value.0 + [sep] + r.value.1 && sep !in r.value.0
  {
    if s == [] then None
    else if s[0] == sep then
      assert s == [] + [sep] + s[1..];
      Some(([], s[1..]))
    else
      match SplitFirst(s[1..], sep)
      case None => None
      case Some((before, after)) =>
        assert s == ([s[0]] + before) + [sep] + after;
        Some(([s[0]] + before, after))
  }

  /** Cutting at the first `sep` undoes gluing a `sep`-free text to another with `sep`. */
  lemma {:induction false} SplitFirstOf(a: string, b: string, sep: char)
    requires sep !in a
    ensures SplitFirst(a + [sep] + b, sep) == Some((a, b))
    decreases |a|
  {
    var s := a + [sep] + b;
    if a == [] {
      assert s == [sep] + b;
      assert s[1..] == b;
    } else {
      assert s[0] == a[0] && s[1..] == a[1..] + [sep] + b;
      SplitFirstOf(a[1..], b, sep);
      assert [a[0]] + a[1..] == a;
    }
  }
}
