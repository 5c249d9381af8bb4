/**
 * The string operations the pipeline uses from Python's standard library:
 * `sep.join(parts)`, `str.strip()` and `os.path.basename`.
 */
module Text {

  /** The separator both pipelines join texts with (a blank line). */
  const ParagraphBreak := "\n\n"

  /** Python's `str.isspace` for one character: the Unicode whitespace `str.strip()` removes. */
  predicate IsSpace(c: char) {
    || ('\t' <= c <= '\r')
    || ('\U{1C}' <= c <= ' ')
    || c == '\U{85}' || c == '\U{A0}' || c == '\U{1680}'
    || ('\U{2000}' <= c <= '\U{200A}')
    || c == '\U{2028}' || c == '\U{2029}' || c == '\U{202F}' || c == '\U{205F}' || c == '\U{3000}'
  }

  /** `sep.join(parts)`: the parts in order, with `sep` between neighbours. */
  function Join(sep: string, parts: seq<string>): string
    decreases |parts|
  {
    if |parts| == 0 then ""
    else if |parts| == 1 then parts[0]
    else Join(sep, parts[..|parts| - 1]) + sep + parts[|parts| - 1]
  }

  /**
   * Where part `i` lands in a join: right after the join of the parts before it and one
   * separator, so the parts appear in their original order.
   */
  lemma {:induction false} JoinPlacesPart(sep: string, parts: seq<string>, i: nat)
    requires i < |parts|
    ensures Join(sep, parts[..i]) + (if i == 0 then "" else sep) + parts[i] <= Join(sep, parts)
  {
    var n := |parts|;
    if i == n - 1 {
      if n > 1 {
        assert parts[..n - 1] == parts[..i];
      }
    } else {
      var init := parts[..n - 1];
      JoinPlacesPart(sep, init, i);
      assert init[..i] == parts[..i];
      assert init[i] == parts[i];
    }
  }

  /** The join of no parts is empty and the join of one part is that part. */
  lemma JoinOfFew(sep: string, p: string)
    ensures Join(sep, []) == ""
    ensures Join(sep, [p]) == p
  {
  }

  /** Leading whitespace removed: the longest suffix of `s` that does not start with whitespace. */
  function StripLeft(s: string): (r: string)
    ensures |r| <= |s| && r == s[|s| - |r|..]
    ensures r == [] || !IsSpace(r[0])
    ensures forall i | 0 <= i < |s| - |r| :: IsSpace(s[i])
  {
    if |s| > 0 && IsSpace(s[0]) then StripLeft(s[1..]) else s
  }

  /** Trailing whitespace removed: the longest prefix of `s` that does not end with whitespace. */
  function StripRight(s: string): (r: string)
    ensures |r| <= |s| && r == s[..|r|]
    ensures r == [] || !IsSpace(r[|r| - 1])
    ensures forall i | |r| <= i < |s| :: IsSpace(s[i])
  {
    if |s| > 0 && IsSpace(s[|s| - 1]) then StripRight(s[..|s| - 1]) else s
  }

  /** `r` sits in `s` at offset `i`, and everything in `s` around it is whitespace. */
  predicate TrimmedAt(s: string, r: string, i: nat)
    requires i + |r| <= |s|
  {
    && s[i..i + |r|] == r
    && (forall k | 0 <= k < i :: IsSpace(s[k]))
    && (forall k | i + |r| <= k < |s| :: IsSpace(s[k]))
  }

  /** Python's `str.strip()`: `s` with whitespace removed from both ends. */
  function Strip(s: string): (r: string)
    ensures r == [] || (!IsSpace(r[0]) && !IsSpace(r[|r| - 1]))
    ensures exists i: nat | i + |r| <= |s| :: TrimmedAt(s, r, i)
  {
    var t := StripLeft(s);
    var r := StripRight(t);
    TrimmedBetween(s, t, r);
    r
  }

  /**
   * A suffix `t` of `s` after whitespace, and a prefix `r` of `t` before whitespace: `r` sits
   * in `s` with only whitespace around it.
   */
  lemma TrimmedBetween(s: string, t: string, r: string)
    requires |t| <= |s| && t == s[|s| - |t|..]
    requires forall k | 0 <= k < |s| - |t| :: IsSpace(s[k])
    requires |r| <= |t| && r == t[..|r|]
    requires forall k | |r| <= k < |t| :: IsSpace(t[k])
    ensures TrimmedAt(s, r, |s| - |t|)
  {
    var i := |s| - |t|;
    assert s[i..][..|r|] == s[i..i + |r|];
    assert forall k | i + |r| <= k < |s| :: s[k] == t[k - i];
  }

  lemma {:induction false} StripLeftSkipsSpaces(pre: string, rest: string)
    requires forall k | 0 <= k < |pre| :: IsSpace(pre[k])
    requires rest == [] || !IsSpace(rest[0])
    ensures StripLeft(pre + rest) == rest
  {
    if |pre| > 0 {
      assert (pre + rest)[1..] == pre[1..] + rest;
      StripLeftSkipsSpaces(pre[1..], rest);
    } else {
      assert pre + rest == rest;
    }
  }

  lemma {:induction false} StripRightSkipsSpaces(rest: string, post: string)
    requires forall k | 0 <= k < |post| :: IsSpace(post[k])
    requires rest == [] || !IsSpace(rest[|rest| - 1])
    ensures StripRight(rest + post) == rest
  {
    if |post| > 0 {
      var n := |post|;
      assert (rest + post)[..|rest| + n - 1] == rest + post[..n - 1];
      StripRightSkipsSpaces(rest, post[..n - 1]);
    } else {
      assert rest + post == rest;
    }
  }

  /**
   * `Strip` is the only way to trim: whatever text without surrounding whitespace is wrapped
   * in whitespace, stripping gives that text back.
   */
  lemma StripUnwraps(pre: string, mid: string, post: string)
    requires forall k | 0 <= k < |pre| :: IsSpace(pre[k])
    requires forall k | 0 <= k < |post| :: IsSpace(post[k])
    requires mid == [] || (!IsSpace(mid[0]) && !IsSpace(mid[|mid| - 1]))
    ensures Strip(pre + mid + post) == mid
  {
    var s := pre + mid + post;
    if mid == [] {
      assert s == pre + post;
      forall k | 0 <= k < |s|
        ensures IsSpace(s[k])
      {
        if k < |pre| {
          assert s[k] == pre[k];
        } else {
          assert s[k] == post[k - |pre|];
        }
      }
      assert s + [] == s;
      StripLeftSkipsSpaces(s, []);
      assert StripLeft(s) == [];
    } else {
      assert s == pre + (mid + post);
      StripLeftSkipsSpaces(pre, mid + post);
      assert StripLeft(s) == mid + post;
      StripRightSkipsSpaces(mid, post);
      assert StripRight(mid + post) == mid;
    }
  }

  /** Stripping twice is stripping once. */
  lemma StripIdempotent(s: string)
    ensures Strip(Strip(s)) == Strip(s)
  {
    StripUnwraps([], Strip(s), []);
    assert [] + Strip(s) + [] == Strip(s);
  }

  /** `os.path.basename` on a POSIX path: everything after the last '/'. */
  function Basename(path: string): string
    decreases |path|
  {
    if |path| == 0 || path[|path| - 1] == '/' then ""
    else Basename(path[..|path| - 1]) + [path[|path| - 1]]
  }

  /**
   * The base name has no '/', is a suffix of the path, and is preceded by '/' when shorter
   * than the path: it is exactly the text after the last '/'.
   */
  lemma {:induction false} BasenameIsLastSegment(path: string)
    ensures var name := Basename(path);
      && '/' !in name
      && |name| <= |path| && name == path[|path| - |name|..]
      && (|name| < |path| ==> path[|path| - |name| - 1] == '/')
  {
    if |path| > 0 && path[|path| - 1] != '/' {
      var init := path[..|path| - 1];
      BasenameIsLastSegment(init);
      var b := Basename(init);
      var c := path[|path| - 1];
      assert Basename(path) == b + [c];
      assert '/' !in b + [c];
      assert b + [c] == path[|path| - |b| - 1..] by {
        assert b == init[|init| - |b|..];
      }
      if |b| < |init| {
        assert path[|init| - |b| - 1] == init[|init| - |b| - 1];
      }
    }
  }

  /** A name without '/' is its own base name. */
  lemma {:induction false} BasenameOfName(name: string)
    requires '/' !in name
    ensures Basename(name) == name
  {
    if |name| > 0 {
      var init := name[..|name| - 1];
      assert forall k | 0 <= k < |init| :: init[k] == name[k];
      BasenameOfName(init);
      assert init + [name[|name| - 1]] == name;
    }
  }

  /** Taking the base name twice is taking it once. */
  lemma BasenameIdempotent(path: string)
    ensures Basename(Basename(path)) == Basename(path)
  {
    BasenameIsLastSegment(path);
    BasenameOfName(Basename(path));
  }
}
