/**
 * The few Python `str` operations the bots rely on: `strip()`, `in`,
 * `startswith` (Dafny's prefix `<=`), `replace`, `split(sep, maxsplit)`
 * and `sep.join(...)`, plus the truthiness test `not x` on optional text.
 */
module PyStr {
  import opened Wrappers

  /** `not x` is false: the value is neither `None` nor the empty string. */
  predicate Truthy(o: Option<string>) {
    o.Some? && o.value != []
  }

  /** The characters for which Python's `str.isspace()` holds. */
  predicate IsSpace(c: char) {
    c == ' ' || ('\t' <= c <= '\r') || ('\U{1c}' <= c <= '\U{1f}')
    || c == '\U{85}' || c == '\U{a0}' || c == '\U{1680}'
    || ('\U{2000}' <= c <= '\U{200a}') || c == '\U{2028}' || c == '\U{2029}'
    || c == '\U{202f}' || c == '\U{205f}' || c == '\U{3000}'
  }

  predicate AllSpace(s: string) {
    forall i | 0 <= i < |s| :: IsSpace(s[i])
  }

  /** Neither end of `s` is whitespace. */
  predicate IsStripped(s: string) {
    s == [] || (!IsSpace(s[0]) && !IsSpace(s[|s| - 1]))
  }

  /** Number of occurrences of `c` in `s`. */
  function Count(c: char, s: string): nat {
    multiset(s)[c]
  }

  /** How many whitespace characters `s` starts with. */
  function LeadingSpace(s: string): (n: nat)
    ensures n <= |s| && AllSpace(s[..n])
    ensures n < |s| ==> !IsSpace(s[n])
  {
    if s != [] && IsSpace(s[0]) then
      var n := 1 + LeadingSpace(s[1..]);
      assert s[..n] == [s[0]] + s[1..][..n - 1];
      n
    else 0
  }

  /** Where the whitespace that `s` ends with begins. */
  function TrailingSpace(s: string): (n: nat)
    ensures n <= |s| && AllSpace(s[n..])
    ensures n > 0 ==> !IsSpace(s[n - 1])
  {
    if s != [] && IsSpace(s[|s| - 1]) then
      var n := TrailingSpace(s[..|s| - 1]);
      assert s[n..] == s[..|s| - 1][n..] + [s[|s| - 1]];
      n
    else |s|
  }

  /** `s.lstrip()`. */
  function LStrip(s: string): (r: string)
    ensures r != [] ==> !IsSpace(r[0])
  {
    s[LeadingSpace(s)..]
  }

  /** `s.rstrip()`. */
  function RStrip(s: string): (r: string)
    ensures r != [] ==> !IsSpace(r[|r| - 1])
  {
    s[..TrailingSpace(s)]
  }

  /** `[p.strip() for p in parts]`. */
  function StripEach(parts: seq<string>): (r: seq<string>)
    ensures |r| == |parts|
    ensures forall k | 0 <= k < |parts| :: r[k] == Strip(parts[k])
    ensures forall k | 0 <= k < |r| :: IsStripped(r[k])
  {
    if parts == [] then [] else [Strip(parts[0])] + StripEach(parts[1..])
  }

  /** `s.strip()`. */
  function Strip(s: string): (r: string)
    ensures |r| <= |s|
    ensures IsStripped(r)
  {
    RStrip(LStrip(s))
  }

  /** Strip removes exactly the surrounding whitespace: `s` is that whitespace around `Strip(s)`. */
  lemma StripSplits(s: string) returns (pre: string, post: string)
    ensures s == pre + Strip(s) + post
    ensures AllSpace(pre) && AllSpace(post)
  {
    var i := LeadingSpace(s);
    var l := s[i..];
    var j := TrailingSpace(l);
    pre, post := s[..i], l[j..];
    assert s == pre + l;
    assert l == l[..j] + post;
  }

  lemma {:induction false} LStripSpacePrefix(pre: string, t: string)
    requires AllSpace(pre)
    requires t == [] || !IsSpace(t[0])
    ensures LStrip(pre + t) == t
    decreases |pre|
  {
    if pre != [] {
      assert (pre + t)[1..] == pre[1..] + t;
      LStripSpacePrefix(pre[1..], t);
      assert LeadingSpace(pre + t) == 1 + LeadingSpace(pre[1..] + t);
    } else {
      assert pre + t == t;
    }
  }

  lemma {:induction false} RStripSpaceSuffix(t: string, post: string)
    requires AllSpace(post)
    requires t == [] || !IsSpace(t[|t| - 1])
    ensures RStrip(t + post) == t
    decreases |post|
  {
    if post != [] {
      assert (t + post)[..|t + post| - 1] == t + post[..|post| - 1];
      RStripSpaceSuffix(t, post[..|post| - 1]);
      assert TrailingSpace(t + post) == TrailingSpace(t + post[..|post| - 1]);
    } else {
      assert t + post == t;
    }
  }

  /** Strip is determined by its contract: whitespace around a stripped core strips to that core. */
  lemma StripUnique(pre: string, core: string, post: string)
    requires AllSpace(pre) && AllSpace(post) && IsStripped(core)
    ensures Strip(pre + core + post) == core
  {
    if core == [] {
      assert pre + core + post == pre + post;
      LStripSpacePrefix(pre + post, []);
    } else {
      assert pre + core + post == pre + (core + post);
      LStripSpacePrefix(pre, core + post);
      RStripSpaceSuffix(core, post);
    }
  }

  /** Trailing whitespace (a line's newline) does not change the stripped text. */
  lemma StripIgnoresTrailingSpace(s: string, w: string)
    requires AllSpace(w)
    ensures Strip(s + w) == Strip(s)
  {
    var pre, post := StripSplits(s);
    assert s + w == pre + Strip(s) + (post + w);
    StripUnique(pre, Strip(s), post + w);
  }

  lemma SpaceFreeOfChar(c: char, s: string)
    requires AllSpace(s) && !IsSpace(c)
    ensures Count(c, s) == 0
  {
    forall i | 0 <= i < |s| ensures s[i] != c {
    }
    assert c !in multiset(s);
  }

  /** Stripping only removes whitespace, so it keeps every other character's count. */
  lemma StripKeepsCount(c: char, s: string)
    requires !IsSpace(c)
    ensures Count(c, Strip(s)) == Count(c, s)
  {
    var pre, post := StripSplits(s);
    SpaceFreeOfChar(c, pre);
    SpaceFreeOfChar(c, post);
  }

  /** `sub` occurs in `s` starting at index `i`. */
  predicate OccursAt(s: string, sub: string, i: nat) {
    i + |sub| <= |s| && s[i..i + |sub|] == sub
  }

  /** Python's `sub in s`. */
  predicate Contains(s: string, sub: string) {
    exists i: nat | i <= |s| :: OccursAt(s, sub, i)
  }

  /** `s.replace(pat, rep)`: every non-overlapping occurrence of `pat`, scanned from the left, becomes `rep`. */
  function Replace(s: string, pat: string, rep: string): string
    requires pat != []
    decreases |s|
  {
    if s == [] then []
    else if pat <= s then rep + Replace(s[|pat|..], pat, rep)
    else [s[0]] + Replace(s[1..], pat, rep)
  }

  /** Replacing text that does not occur is the identity. */
  lemma {:induction false} ReplaceAbsent(s: string, pat: string, rep: string)
    requires pat != []
    requires !Contains(s, pat)
    ensures Replace(s, pat, rep) == s
    decreases |s|
  {
    if s != [] {
      if pat <= s {
        assert OccursAt(s, pat, 0);
      } else {
        if Contains(s[1..], pat) {
          var i: nat :| i <= |s[1..]| && OccursAt(s[1..], pat, i);
          assert s[i + 1..i + 1 + |pat|] == s[1..][i..i + |pat|];
          assert OccursAt(s, pat, i + 1);
        }
        ReplaceAbsent(s[1..], pat, rep);
        assert [s[0]] + s[1..] == s;
      }
    }
  }

  /** A character that is in neither the pattern nor the replacement keeps its count. */
  lemma {:induction false} ReplaceKeepsCount(s: string, pat: string, rep: string, c: char)
    requires pat != []
    requires c !in pat && c !in rep
    ensures Count(c, Replace(s, pat, rep)) == Count(c, s)
    decreases |s|
  {
    if s != [] {
      if pat <= s {
        assert s == pat + s[|pat|..];
        ReplaceKeepsCount(s[|pat|..], pat, rep, c);
      } else {
        assert s == [s[0]] + s[1..];
        ReplaceKeepsCount(s[1..], pat, rep, c);
      }
    }
  }

  /** A text without the pattern's first character does not contain the pattern. */
  lemma AbsentFirstChar(s: string, pat: string)
    requires pat != [] && pat[0] !in s
    ensures !Contains(s, pat)
  {
    forall i: nat | i <= |s| ensures !OccursAt(s, pat, i) {
      if i + |pat| <= |s| {
        assert s[i..i + |pat|][0] == s[i];
      }
    }
  }

  /** A one-character pattern cannot straddle a cut, so replacing it works piece by piece. */
  lemma {:induction false} ReplaceCharConcat(a: string, b: string, x: char, rep: string)
    ensures Replace(a + b, [x], rep) == Replace(a, [x], rep) + Replace(b, [x], rep)
    decreases |a|
  {
    if a != [] {
      assert (a + b)[1..] == a[1..] + b;
      ReplaceCharConcat(a[1..], b, x, rep);
      var head := if a[0] == x then rep else [a[0]];
      assert (a + b)[..1] == [a[0]] == a[..1];
      assert [x] <= a + b <==> a[0] == x;
      assert [x] <= a <==> a[0] == x;
      assert Replace(a + b, [x], rep) == head + Replace(a[1..] + b, [x], rep);
      assert Replace(a, [x], rep) == head + Replace(a[1..], [x], rep);
    } else {
      assert a + b == b;
    }
  }

  /** The only occurrence of a character is replaced where it stands. */
  lemma ReplaceSoleChar(a: string, e: string, x: char, rep: string)
    requires x !in a && x !in e
    ensures Replace(a + [x] + e, [x], rep) == a + rep + e
  {
    AbsentFirstChar(a, [x]);
    ReplaceAbsent(a, [x], rep);
    AbsentFirstChar(e, [x]);
    ReplaceAbsent(e, [x], rep);
    assert Replace([x], [x], rep) == rep + Replace([], [x], rep);
    ReplaceCharConcat([x], e, x, rep);
    assert a + [x] + e == a + ([x] + e);
    ReplaceCharConcat(a, [x] + e, x, rep);
  }

  /** Removing every `a` leaves none. */
  lemma {:induction false} RemoveCharCount(s: string, a: char)
    ensures Count(a, Replace(s, [a], [])) == 0
    decreases |s|
  {
    if s != [] {
      assert s == [s[0]] + s[1..];
      RemoveCharCount(s[1..], a);
    }
  }

  /** Turning every `a` into `b` leaves no `a` and adds the count of `a` to the count of `b`. */
  lemma {:induction false} ReplaceCharCount(s: string, a: char, b: char)
    requires a != b
    ensures Count(a, Replace(s, [a], [b])) == 0
    ensures Count(b, Replace(s, [a], [b])) == Count(b, s) + Count(a, s)
    decreases |s|
  {
    if s != [] {
      assert s == [s[0]] + s[1..];
      ReplaceCharCount(s[1..], a, b);
    }
  }

  /** `s.split(sep, ...)` finds the first `sep`. */
  function IndexOf(s: string, c: char): (i: nat)
    requires c in s
    ensures i < |s| && s[i] == c && c !in s[..i]
  {
    if s[0] == c then 0 else 1 + IndexOf(s[1..], c)
  }

  /** Splitting at a separator that is the first one in the text. */
  lemma SplitFirst(a: string, rest: string, sep: char, maxsplit: nat)
    requires sep !in a && maxsplit > 0
    ensures Split(a + [sep] + rest, sep, maxsplit) == [a] + Split(rest, sep, maxsplit - 1)
  {
    var s := a + [sep] + rest;
    assert s[..|a|] == a && s[|a| + 1..] == rest;
    IndexOfFirst(s, sep, |a|);
  }

  /** With two separators in the text, a two-cut split yields the three fields between them. */
  lemma SplitThreeFields(a: string, b: string, c: string, sep: char)
    requires sep !in a && sep !in b
    ensures Split(a + [sep] + (b + [sep] + c), sep, 2) == [a, b, c]
  {
    var last := Split(c, sep, 0);
    assert last == [c];
    SplitFirst(b, c, sep, 1);
    var tail := Split(b + [sep] + c, sep, 1);
    assert tail == [b] + last == [b, c];
    SplitFirst(a, b + [sep] + c, sep, 2);
    assert Split(a + [sep] + (b + [sep] + c), sep, 2) == [a] + tail;
  }

  /**
   * The first occurrence as a proof step: the inductive split lemmas use this
   * index without an `IndexOf` term in scope, whose unfolding makes them too costly.
   */
  lemma FirstOccurrence(s: string, c: char) returns (i: nat)
    requires c in s
    ensures i < |s| && s[i] == c && c !in s[..i]
  {
    i := IndexOf(s, c);
  }

  /** The contract of IndexOf pins its result down. */
  lemma {:induction false} IndexOfFirst(s: string, c: char, j: nat)
    requires j < |s| && s[j] == c && c !in s[..j]
    ensures IndexOf(s, c) == j
  {
    if j > 0 {
      assert s[0] == s[..j][0];
      assert s[1..][..j - 1] == s[1..j];
      assert s[1..j] == s[..j][1..];
      IndexOfFirst(s[1..], c, j - 1);
    }
  }

  /** `sep.join(parts)`. */
  function Join(sep: string, parts: seq<string>): string {
    if |parts| == 0 then []
    else if |parts| == 1 then parts[0]
    else parts[0] + sep + Join(sep, parts[1..])
  }

  function Min(a: nat, b: nat): nat {
    if a <= b then a else b
  }

  /** `s.split(sep, maxsplit)` for a one-character separator: at most `maxsplit` cuts, made at
      the leftmost separators; joining the parts back gives `s`. */
  function Split(s: string, sep: char, maxsplit: nat): (parts: seq<string>)
    ensures 1 <= |parts| <= maxsplit + 1
    ensures forall k | 0 <= k < |parts| - 1 :: sep !in parts[k]
    decreases maxsplit
  {
    if maxsplit == 0 || sep !in s then [s]
    else
      var i := IndexOf(s, sep);
      var head, tail := s[..i], s[i + 1..];
      var rest := Split(tail, sep, maxsplit - 1);
      var parts := [head] + rest;
      assert parts[1..] == rest;
      parts
  }

  /** Joining the parts with the separator gives back the text that was split. */
  lemma {:induction false} SplitJoin(s: string, sep: char, maxsplit: nat)
    ensures Join([sep], Split(s, sep, maxsplit)) == s
    decreases maxsplit
  {
    if maxsplit > 0 && sep in s {
      var i := FirstOccurrence(s, sep);
      var tail := s[i + 1..];
      SplitJoin(tail, sep, maxsplit - 1);
      SplitJoinStep(s, sep, maxsplit, i, tail);
    }
  }

  /** Joining carries over a cut at the first separator. */
  lemma SplitJoinStep(s: string, sep: char, maxsplit: nat, i: nat, tail: string)
    requires maxsplit > 0 && i < |s| && s[i] == sep && sep !in s[..i] && tail == s[i + 1..]
    requires Join([sep], Split(tail, sep, maxsplit - 1)) == tail
    ensures Join([sep], Split(s, sep, maxsplit)) == s
  {
    SplitPastFirst(s, sep, maxsplit, i);
    var rest := Split(tail, sep, maxsplit - 1);
    assert ([s[..i]] + rest)[1..] == rest;
    assert s == s[..i] + [sep] + tail;
  }

  /** A cut is made at every separator until `maxsplit` cuts are made. */
  lemma {:induction false} SplitCount(s: string, sep: char, maxsplit: nat)
    ensures |Split(s, sep, maxsplit)| == Min(Count(sep, s), maxsplit) + 1
    decreases maxsplit
  {
    if maxsplit == 0 {
      assert Split(s, sep, maxsplit) == [s];
    } else if sep !in s {
      assert Split(s, sep, maxsplit) == [s];
      assert sep !in multiset(s);
    } else {
      var i := FirstOccurrence(s, sep);
      var tail := s[i + 1..];
      SplitCount(tail, sep, maxsplit - 1);
      SplitCountStep(s, sep, maxsplit, i, tail);
    }
  }

  /** The count of parts carries over a cut at the first separator. */
  lemma SplitCountStep(s: string, sep: char, maxsplit: nat, i: nat, tail: string)
    requires maxsplit > 0 && i < |s| && s[i] == sep && sep !in s[..i] && tail == s[i + 1..]
    requires |Split(tail, sep, maxsplit - 1)| == Min(Count(sep, tail), maxsplit - 1) + 1
    ensures |Split(s, sep, maxsplit)| == Min(Count(sep, s), maxsplit) + 1
  {
    CountPastFirst(s, sep, i);
    SplitPastFirst(s, sep, maxsplit, i);
  }

  /** The first separator accounts for one occurrence; the rest lie after it. */
  lemma CountPastFirst(s: string, sep: char, i: nat)
    requires i < |s| && s[i] == sep && sep !in s[..i]
    ensures Count(sep, s) == Count(sep, s[i + 1..]) + 1
  {
    var head, tail := s[..i], s[i + 1..];
    assert s == head + [sep] + tail;
    assert multiset(s) == multiset(head) + multiset([sep]) + multiset(tail);
  }

  /** Past the first cut, splitting continues on the text after the separator. */
  lemma SplitPastFirst(s: string, sep: char, maxsplit: nat, i: nat)
    requires maxsplit > 0 && i < |s| && s[i] == sep && sep !in s[..i]
    ensures Split(s, sep, maxsplit) == [s[..i]] + Split(s[i + 1..], sep, maxsplit - 1)
  {
    IndexOfFirst(s, sep, i);
  }
}
