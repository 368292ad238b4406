/**
 * The parts of Go's `strings` and `strconv` packages that the transcription
 * tool relies on, as pure functions over strings. A `char` stands for one
 * byte of the Go string, so `|s|` is Go's `len(s)`; only ASCII behaviour is
 * modelled (white space is the six ASCII space characters that
 * `unicode.IsSpace` accepts).
 */
module Text {

  /** A Go `(value, error)` pair: either a value or the error's message. */
  datatype Result<T> = Ok(value: T) | Err(msg: string)

  datatype Option<T> = None | Some(value: T)

  // ---------------------------------------------------------------------
  // Characters

  /** `unicode.IsSpace` restricted to single bytes. */
  predicate IsSpace(c: char)
  {
    c == ' ' || c == '\t' || c == '\n' || c == '\r' || c == '\U{000B}' || c == '\U{000C}'
  }

  predicate AllSpace(s: string)
  {
    forall i :: 0 <= i < |s| ==> IsSpace(s[i])
  }

  /** A non-empty string without white space: one element of `strings.Fields`. */
  predicate IsWord(w: string)
  {
    |w| > 0 && forall i :: 0 <= i < |w| ==> !IsSpace(w[i])
  }

  predicate NoChar(s: string, c: char)
  {
    forall i :: 0 <= i < |s| ==> s[i] != c
  }

  // ---------------------------------------------------------------------
  // strings.Fields

  /** The longest prefix of `s` without white space. */
  function LeadingWord(s: string): (w: string)
    ensures |w| <= |s| && w == s[..|w|]
    ensures forall i :: 0 <= i < |w| ==> !IsSpace(w[i])
    ensures |w| < |s| ==> IsSpace(s[|w|])
  {
    if s == [] || IsSpace(s[0]) then [] else [s[0]] + LeadingWord(s[1..])
  }

  /** `strings.Fields`: the maximal runs of non-space characters, in order. */
  function Fields(s: string): (ws: seq<string>)
    ensures forall k :: 0 <= k < |ws| ==> IsWord(ws[k])
    decreases |s|
  {
    if s == [] then []
    else if IsSpace(s[0]) then Fields(s[1..])
    else
      var w := LeadingWord(s);
      [w] + Fields(s[|w|..])
  }

  lemma {:induction false} LeadingWordOfWord(w: string, rest: string)
    requires IsWord(w)
    requires rest == [] || IsSpace(rest[0])
    ensures LeadingWord(w + rest) == w
    decreases |w|
  {
    if |w| > 1 {
      assert (w + rest)[1..] == w[1..] + rest;
      LeadingWordOfWord(w[1..], rest);
    } else {
      assert (w + rest)[1..] == rest;
    }
  }

  lemma {:induction false} LeadingWordAppend(a: string, b: string)
    requires |LeadingWord(a)| < |a|
    ensures LeadingWord(a + b) == LeadingWord(a)
    decreases |a|
  {
    if a != [] && !IsSpace(a[0]) {
      assert (a + b)[1..] == a[1..] + b;
      LeadingWordAppend(a[1..], b);
    }
  }

  lemma FieldsSpaceCons(s: string)
    requires s != [] && IsSpace(s[0])
    ensures Fields(s) == Fields(s[1..])
  {
  }

  lemma FieldsWordCons(s: string)
    requires s != [] && !IsSpace(s[0])
    ensures Fields(s) == [LeadingWord(s)] + Fields(s[|LeadingWord(s)|..])
  {
  }

  /** A white-space character between two strings separates their fields. */
  lemma {:induction false} FieldsAppend(a: string, b: string)
    requires a == [] || b == [] || IsSpace(a[|a| - 1]) || IsSpace(b[0])
    ensures Fields(a + b) == Fields(a) + Fields(b)
    decreases |a|
  {
    if a == [] {
      assert a + b == b;
    } else if IsSpace(a[0]) {
      FieldsAppend(a[1..], b);
      FieldsAppendSpace(a, b);
    } else if |LeadingWord(a)| < |a| {
      var w := LeadingWord(a);
      FieldsAppend(a[|w|..], b);
      FieldsAppendWord(a, b);
    } else {
      assert LeadingWord(a) == a;
      FieldsWordThen(a, b);
      FieldsOfWord(a);
    }
  }

  /** The step of FieldsAppend past a leading white-space character. */
  lemma FieldsAppendSpace(a: string, b: string)
    requires a != [] && IsSpace(a[0])
    requires Fields(a[1..] + b) == Fields(a[1..]) + Fields(b)
    ensures Fields(a + b) == Fields(a) + Fields(b)
  {
    assert (a + b)[1..] == a[1..] + b;
    FieldsSpaceCons(a);
    FieldsSpaceCons(a + b);
  }

  /** The step of FieldsAppend past a leading word that ends inside `a`. */
  lemma FieldsAppendWord(a: string, b: string)
    requires a != [] && !IsSpace(a[0]) && |LeadingWord(a)| < |a|
    requires Fields(a[|LeadingWord(a)|..] + b) == Fields(a[|LeadingWord(a)|..]) + Fields(b)
    ensures Fields(a + b) == Fields(a) + Fields(b)
  {
    var w := LeadingWord(a);
    var rest := a[|w|..];
    FieldsWordCons(a);
    LeadingWordAppend(a, b);
    FieldsWordCons(a + b);
    assert (a + b)[|w|..] == rest + b;
    ConcatAssoc([w], Fields(rest), Fields(b));
  }

  lemma ConcatAssoc<T>(a: seq<T>, b: seq<T>, c: seq<T>)
    ensures a + (b + c) == a + b + c
  {
  }

  /** A whole word followed by white space or nothing is the first field. */
  lemma FieldsWordThen(w: string, b: string)
    requires IsWord(w) && (b == [] || IsSpace(b[0]))
    ensures Fields(w + b) == [w] + Fields(b)
  {
    LeadingWordOfWord(w, b);
    FieldsWordCons(w + b);
    assert (w + b)[|w|..] == b;
  }

  /** Leading white space adds no field. */
  lemma {:induction false} FieldsSpacePrefix(pre: string, x: string)
    requires AllSpace(pre)
    ensures Fields(pre + x) == Fields(x)
    decreases |pre|
  {
    if pre == [] {
      assert pre + x == x;
    } else {
      assert (pre + x)[1..] == pre[1..] + x;
      FieldsSpaceCons(pre + x);
      FieldsSpacePrefix(pre[1..], x);
    }
  }

  lemma FieldsOfWord(w: string)
    requires IsWord(w)
    ensures Fields(w) == [w]
  {
    LeadingWordOfWord(w, []);
    assert w + [] == w;
    FieldsWordCons(w);
    assert w[|w|..] == [];
  }

  lemma {:induction false} FieldsOfSpace(s: string)
    requires AllSpace(s)
    ensures Fields(s) == []
    decreases |s|
  {
    if s != [] {
      FieldsOfSpace(s[1..]);
    }
  }

  /** Fields of `a + sep + b` for a white-space separator. */
  lemma FieldsJoin(a: string, sep: string, b: string)
    requires |sep| > 0 && AllSpace(sep)
    ensures Fields(a + sep + b) == Fields(a) + Fields(b)
  {
    FieldsAppend(a, sep + b);
    assert a + (sep + b) == a + sep + b;
    FieldsAppend(sep, b);
    FieldsOfSpace(sep);
  }

  // ---------------------------------------------------------------------
  // strings.TrimSpace and friends

  function TrimLeftSpace(s: string): (r: string)
    ensures |r| <= |s|
    ensures r == [] || !IsSpace(r[0])
  {
    if s != [] && IsSpace(s[0]) then TrimLeftSpace(s[1..]) else s
  }

  /** TrimLeftSpace keeps a suffix of `s` and removes only white space. */
  lemma {:induction false} TrimLeftSpaceSkips(s: string)
    ensures TrimLeftSpace(s) == s[|s| - |TrimLeftSpace(s)|..]
    ensures forall k :: 0 <= k < |s| - |TrimLeftSpace(s)| ==> IsSpace(s[k])
    decreases |s|
  {
    if s != [] && IsSpace(s[0]) {
      TrimLeftSpaceSkips(s[1..]);
      assert s[1..][|s| - 1 - |TrimLeftSpace(s)|..] == s[|s| - |TrimLeftSpace(s)|..];
      forall k | 1 <= k < |s| - |TrimLeftSpace(s)| ensures IsSpace(s[k]) {
        assert s[k] == s[1..][k - 1];
      }
    }
  }

  function TrimRightSpace(s: string): (r: string)
    ensures |r| <= |s|
    ensures r == [] || !IsSpace(r[|r| - 1])
  {
    if s != [] && IsSpace(s[|s| - 1]) then TrimRightSpace(s[..|s| - 1]) else s
  }

  /** TrimRightSpace keeps a prefix of `s` and removes only white space. */
  lemma {:induction false} TrimRightSpaceSkips(s: string)
    ensures TrimRightSpace(s) == s[..|TrimRightSpace(s)|]
    ensures forall k :: |TrimRightSpace(s)| <= k < |s| ==> IsSpace(s[k])
    decreases |s|
  {
    if s != [] && IsSpace(s[|s| - 1]) {
      TrimRightSpaceSkips(s[..|s| - 1]);
      assert s[..|s| - 1][..|TrimRightSpace(s)|] == s[..|TrimRightSpace(s)|];
      forall k | |TrimRightSpace(s)| <= k < |s| - 1 ensures IsSpace(s[k]) {
        assert s[k] == s[..|s| - 1][k];
      }
    }
  }

  /** `strings.TrimSpace`: `s` without leading and trailing white space. */
  function TrimSpace(s: string): (r: string)
    ensures |r| <= |s|
    ensures r == [] || (!IsSpace(r[0]) && !IsSpace(r[|r| - 1]))
  {
    TrimRightSpaceSkips(TrimLeftSpace(s));
    TrimRightSpace(TrimLeftSpace(s))
  }

  /** Trimming white space does not change the fields. */
  lemma FieldsTrimSpace(s: string)
    ensures Fields(TrimSpace(s)) == Fields(s)
  {
    FieldsTrimLeftSpace(s);
    FieldsTrimRightSpace(TrimLeftSpace(s));
  }

  lemma {:induction false} FieldsTrimLeftSpace(s: string)
    ensures Fields(TrimLeftSpace(s)) == Fields(s)
    decreases |s|
  {
    if s != [] && IsSpace(s[0]) {
      FieldsSpaceCons(s);
      FieldsTrimLeftSpace(s[1..]);
    }
  }

  lemma FieldsTrimRightSpace(s: string)
    ensures Fields(TrimRightSpace(s)) == Fields(s)
  {
    var r := TrimRightSpace(s);
    var post := s[|r|..];
    TrimRightSpaceSkips(s);
    assert s == r + post;
    forall k | 0 <= k < |post| ensures IsSpace(post[k]) {
      assert post[k] == s[|r| + k];
    }
    FieldsAppend(r, post);
    FieldsOfSpace(post);
    assert Fields(r) + [] == Fields(r);
  }

  lemma {:induction false} TrimLeftSpacePrefix(pre: string, x: string)
    requires AllSpace(pre)
    ensures TrimLeftSpace(pre + x) == TrimLeftSpace(x)
    decreases |pre|
  {
    if pre == [] {
      assert pre + x == x;
    } else {
      assert (pre + x)[1..] == pre[1..] + x;
      TrimLeftSpacePrefix(pre[1..], x);
    }
  }

  lemma {:induction false} TrimRightSpaceSuffix(x: string, post: string)
    requires AllSpace(post)
    ensures TrimRightSpace(x + post) == TrimRightSpace(x)
    decreases |post|
  {
    if post == [] {
      assert x + post == x;
    } else {
      assert (x + post)[..|x + post| - 1] == x + post[..|post| - 1];
      TrimRightSpaceSuffix(x, post[..|post| - 1]);
    }
  }

  lemma {:induction false} TrimLeftSpaceAppend(s: string, t: string)
    requires TrimLeftSpace(s) != []
    ensures TrimLeftSpace(s + t) == TrimLeftSpace(s) + t
    decreases |s|
  {
    if IsSpace(s[0]) {
      TrimLeftSpaceAppend(s[1..], t);
      TrimLeftSpaceCons(s, t);
    } else {
      assert (s + t)[0] == s[0];
    }
  }

  /** The step of TrimLeftSpaceAppend past a leading white-space character. */
  lemma TrimLeftSpaceCons(s: string, t: string)
    requires s != [] && IsSpace(s[0])
    ensures TrimLeftSpace(s + t) == TrimLeftSpace(s[1..] + t) && TrimLeftSpace(s) == TrimLeftSpace(s[1..])
  {
    assert (s + t)[1..] == s[1..] + t;
  }

  /** White space added around a string is removed again by TrimSpace. */
  lemma TrimSpaceSurround(pre: string, s: string, post: string)
    requires AllSpace(pre) && AllSpace(post)
    ensures TrimSpace(pre + s + post) == TrimSpace(s)
  {
    assert pre + s + post == pre + (s + post);
    TrimLeftSpacePrefix(pre, s + post);
    if TrimLeftSpace(s) != [] {
      TrimLeftSpaceAppend(s, post);
      TrimRightSpaceSuffix(TrimLeftSpace(s), post);
    } else {
      TrimLeftSpaceSkips(s);
      TrimLeftSpacePrefix(s, post);
      TrimLeftSpacePrefix(post, []);
      assert post + [] == post;
    }
  }

  // ---------------------------------------------------------------------
  // Searching

  /** `s` has `p` at position `i`. */
  predicate OccursAt(s: string, p: string, i: int)
  {
    0 <= i && i + |p| <= |s| && s[i..i + |p|] == p
  }


  /** `strings.HasPrefix`. */
  predicate HasPrefix(s: string, p: string)
  {
    |p| <= |s| && s[..|p|] == p
  }

  /** `strings.HasSuffix`. */
  predicate HasSuffix(s: string, x: string)
  {
    |x| <= |s| && s[|s| - |x|..] == x
  }

  /** `strings.Index`: the first position of `p` in `s`, or -1. */
  function Index(s: string, p: string): (r: int)
    ensures -1 <= r <= |s|
    ensures r >= 0 ==> OccursAt(s, p, r)
    decreases |s|
  {
    if HasPrefix(s, p) then 0
    else if s == [] then -1
    else
      var r := Index(s[1..], p);
      if r < 0 then -1 else r + 1
  }

  /** No occurrence of `p` comes before the one Index finds. */
  lemma {:induction false} IndexFirst(s: string, p: string)
    ensures forall j :: 0 <= j < (if Index(s, p) < 0 then |s| + 1 else Index(s, p)) ==> !OccursAt(s, p, j)
    decreases |s|
  {
    if !HasPrefix(s, p) && s != [] {
      IndexFirst(s[1..], p);
      forall j | 1 <= j <= |s| && OccursAt(s, p, j) ensures OccursAt(s[1..], p, j - 1) {
        assert s[1..][j - 1..j - 1 + |p|] == s[j..j + |p|];
      }
    }
  }

  /** `strings.Contains`: `p` occurs somewhere in `s`. */
  predicate Contains(s: string, p: string)
    ensures Contains(s, p) <==> exists i :: OccursAt(s, p, i)
  {
    IndexFirst(s, p);
    Index(s, p) >= 0
  }

  /** An occurrence of a word in `s` lies inside any stretch of `s` that only white space surrounds. */
  lemma OccursInside(s: string, p: string, i: nat, n: nat, j: int)
    requires IsWord(p) && i + n <= |s| && OccursAt(s, p, j)
    requires forall k :: 0 <= k < i ==> IsSpace(s[k])
    requires forall k :: i + n <= k < |s| ==> IsSpace(s[k])
    ensures OccursAt(s[i..i + n], p, j - i)
  {
    assert s[j] == s[j..j + |p|][0] == p[0];
    assert s[j + |p| - 1] == s[j..j + |p|][|p| - 1] == p[|p| - 1];
    assert !IsSpace(s[j]) && !IsSpace(s[j + |p| - 1]);
    assert i <= j && j + |p| <= i + n;
    var t := s[i..i + n];
    forall k | 0 <= k < |p| ensures t[j - i..j - i + |p|][k] == p[k] {
      assert t[j - i + k] == s[j + k] == s[j..j + |p|][k];
    }
    assert t[j - i..j - i + |p|] == p;
  }

  /** TrimSpace keeps the stretch of `s` between its leading and trailing white space. */
  lemma TrimSpaceSpan(s: string) returns (i: nat)
    ensures i + |TrimSpace(s)| <= |s| && TrimSpace(s) == s[i..i + |TrimSpace(s)|]
    ensures forall k :: 0 <= k < i ==> IsSpace(s[k])
    ensures forall k :: i + |TrimSpace(s)| <= k < |s| ==> IsSpace(s[k])
  {
    var l := TrimLeftSpace(s);
    var r := TrimRightSpace(l);
    assert r == TrimSpace(s);
    TrimLeftSpaceSkips(s);
    TrimRightSpaceSkips(l);
    i := |s| - |l|;
    assert l == s[i..];
    assert r == l[..|r|];
    assert l[..|r|] == s[i..i + |r|];
    forall k | i + |r| <= k < |s| ensures IsSpace(s[k]) {
      assert s[k] == l[k - i];
    }
  }

  lemma OccursShift(s: string, i: nat, n: nat, p: string, j: int)
    requires i + n <= |s| && OccursAt(s[i..i + n], p, j)
    ensures OccursAt(s, p, i + j)
  {
    var t := s[i..i + n];
    forall k | 0 <= k < |p| ensures s[i + j..i + j + |p|][k] == p[k] {
      assert s[i + j + k] == t[j + k] == t[j..j + |p|][k];
    }
  }

  /** A word occurs in `s` exactly when it occurs in `s` without its surrounding white space. */
  lemma ContainsTrimSpace(s: string, p: string)
    requires IsWord(p)
    ensures Contains(TrimSpace(s), p) <==> Contains(s, p)
    ensures TrimSpace(s) == [] <==> AllSpace(s)
  {
    var t := TrimSpace(s);
    var i := TrimSpaceSpan(s);
    ContainsSpan(s, p, i, t);
    TrimSpaceEmpty(s);
  }

  /** A word occurs in `s` exactly when it occurs in a stretch `t` of `s` that only white space surrounds. */
  lemma ContainsSpan(s: string, p: string, i: nat, t: string)
    requires IsWord(p) && i + |t| <= |s| && t == s[i..i + |t|]
    requires forall k :: 0 <= k < i ==> IsSpace(s[k])
    requires forall k :: i + |t| <= k < |s| ==> IsSpace(s[k])
    ensures Contains(t, p) <==> Contains(s, p)
  {
    if Contains(t, p) {
      var j :| OccursAt(t, p, j);
      OccursShift(s, i, |t|, p, j);
    }
    if Contains(s, p) {
      var j :| OccursAt(s, p, j);
      OccursInside(s, p, i, |t|, j);
    }
  }

  lemma TrimSpaceEmpty(s: string)
    ensures TrimSpace(s) == [] <==> AllSpace(s)
  {
    var i := TrimSpaceSpan(s);
    if TrimSpace(s) != [] {
      assert s[i] == TrimSpace(s)[0];
    }
  }

  /** `strings.LastIndex` for a one-character pattern. */
  function LastIndexOf(s: string, c: char): (r: int)
    ensures -1 <= r < |s|
    ensures r >= 0 ==> s[r] == c
    ensures forall j :: r < j < |s| ==> s[j] != c
  {
    if s == [] then -1
    else if s[|s| - 1] == c then |s| - 1
    else LastIndexOf(s[..|s| - 1], c)
  }

  // ---------------------------------------------------------------------
  // Splitting and joining on one character

  /** `strings.Split(s, string(c))`: always one more part than there are `c`s. */
  function Split(s: string, c: char): (parts: seq<string>)
    ensures |parts| >= 1
    ensures forall k :: 0 <= k < |parts| ==> NoChar(parts[k], c)
    decreases |s|
  {
    if s == [] then [""]
    else
      var rest := Split(s[1..], c);
      if s[0] == c then [""] + rest
      else [[s[0]] + rest[0]] + rest[1..]
  }

  /** `strings.Join(parts, string(c))`. */
  function Join(parts: seq<string>, c: char): string
    decreases |parts|
  {
    if parts == [] then ""
    else if |parts| == 1 then parts[0]
    else parts[0] + [c] + Join(parts[1..], c)
  }

  lemma {:induction false} SplitNoChar(s: string, c: char)
    requires NoChar(s, c)
    ensures Split(s, c) == [s]
    decreases |s|
  {
    if s != [] {
      SplitNoChar(s[1..], c);
      assert [s[0]] + s[1..] == s;
    }
  }

  /** Splitting at a separator character splits the two sides apart. */
  lemma {:induction false} SplitAround(a: string, c: char, b: string)
    requires NoChar(a, c)
    ensures Split(a + [c] + b, c) == [a] + Split(b, c)
    decreases |a|
  {
    if a == [] {
      assert a + [c] + b == [c] + b;
      assert ([c] + b)[1..] == b;
    } else {
      assert (a + [c] + b)[1..] == a[1..] + [c] + b;
      SplitAround(a[1..], c, b);
      assert [a[0]] + a[1..] == a;
    }
  }

  /** Splitting a string whose first line is `a` (without `c`): `a` extends the first part. */
  lemma {:induction false} SplitPrepend(a: string, c: char, b: string)
    requires NoChar(a, c)
    ensures var p := Split(a + b, c); var q := Split(b, c);
      |p| == |q| && p[0] == a + q[0] && p[1..] == q[1..]
    decreases |a|
  {
    if a == [] {
      assert a + b == b;
    } else {
      assert (a + b)[1..] == a[1..] + b;
      SplitPrepend(a[1..], c, b);
      assert [a[0]] + (a[1..] + Split(b, c)[0]) == a + Split(b, c)[0];
    }
  }

  lemma {:induction false} JoinSplit(s: string, c: char)
    ensures Join(Split(s, c), c) == s
    decreases |s|
  {
    if s != [] {
      JoinSplit(s[1..], c);
      var rest := Split(s[1..], c);
      if s[0] == c {
        assert Join([""] + rest, c) == "" + [c] + Join(rest, c);
      } else {
        var p := [[s[0]] + rest[0]] + rest[1..];
        if |rest| == 1 {
          assert Join(rest, c) == rest[0];
        } else {
          assert Join(rest, c) == rest[0] + [c] + Join(rest[1..], c);
          assert p[1..] == rest[1..];
        }
      }
    }
  }

  /** Lines joined and followed by a separator split back into the same lines. */
  lemma {:induction false} SplitJoinThen(parts: seq<string>, c: char, rest: string)
    requires |parts| >= 1 && forall k :: 0 <= k < |parts| ==> NoChar(parts[k], c)
    ensures Split(Join(parts, c) + [c] + rest, c) == parts + Split(rest, c)
    decreases |parts|
  {
    if |parts| == 1 {
      SplitAround(parts[0], c, rest);
    } else {
      SplitJoinThen(parts[1..], c, rest);
      SplitJoinThenStep(parts, c, rest);
    }
  }

  /** The step of SplitJoinThen past the first part. */
  lemma SplitJoinThenStep(parts: seq<string>, c: char, rest: string)
    requires |parts| >= 2 && NoChar(parts[0], c)
    requires Split(Join(parts[1..], c) + [c] + rest, c) == parts[1..] + Split(rest, c)
    ensures Split(Join(parts, c) + [c] + rest, c) == parts + Split(rest, c)
  {
    var tail := Join(parts[1..], c) + [c] + rest;
    assert Join(parts, c) + [c] + rest == parts[0] + [c] + tail;
    SplitAround(parts[0], c, tail);
    ConcatAssoc([parts[0]], parts[1..], Split(rest, c));
    assert [parts[0]] + parts[1..] == parts;
  }

  // ---------------------------------------------------------------------
  // Replacing

  /** `strings.ReplaceAll(s, string(c), string(d))`. */
  function ReplaceChar(s: string, c: char, d: char): (r: string)
    ensures |r| == |s|
    ensures forall i :: 0 <= i < |s| ==> r[i] == if s[i] == c then d else s[i]
  {
    seq(|s|, i requires 0 <= i < |s| => if s[i] == c then d else s[i])
  }

  /** `strings.ReplaceAll`: leftmost, non-overlapping replacement. */
  function ReplaceAll(s: string, pat: string, rep: string): (r: string)
    requires |pat| > 0
    decreases |s|
  {
    if |s| < |pat| then s
    else if s[..|pat|] == pat then rep + ReplaceAll(s[|pat|..], pat, rep)
    else [s[0]] + ReplaceAll(s[1..], pat, rep)
  }

  // ---------------------------------------------------------------------
  // Trimming by a cut set

  /** `strings.TrimRight(s, cutset)`. */
  function TrimRight(s: string, cutset: string): (r: string)
    ensures |r| <= |s| && r == s[..|r|]
    ensures r == [] || r[|r| - 1] !in cutset
    ensures forall i :: |r| <= i < |s| ==> s[i] in cutset
  {
    if s != [] && s[|s| - 1] in cutset then TrimRight(s[..|s| - 1], cutset) else s
  }

  /** `strings.TrimLeft(s, cutset)`. */
  function TrimLeft(s: string, cutset: string): (r: string)
    ensures |r| <= |s| && r == s[|s| - |r|..]
    ensures r == [] || r[0] !in cutset
    ensures forall i :: 0 <= i < |s| - |r| ==> s[i] in cutset
  {
    if s != [] && s[0] in cutset then TrimLeft(s[1..], cutset) else s
  }

  /** `strings.Trim(s, cutset)`. */
  function Trim(s: string, cutset: string): string
  {
    TrimRight(TrimLeft(s, cutset), cutset)
  }

  /**
   * `filepath.Join(dir, name)` for a clean directory and a plain file name:
   * the two joined by one separator.
   */
  function JoinPath(dir: string, name: string): (r: string)
    ensures HasSuffix(r, name)
    ensures dir != "" ==> HasPrefix(r, dir) && |r| > |name| && r[|r| - |name| - 1] == '/'
  {
    if dir == "" then name
    else if dir[|dir| - 1] == '/' then dir[..|dir| - 1] + "/" + name
    else dir + "/" + name
  }

  // ---------------------------------------------------------------------
  // Decimal numbers (`%d`, `%02d`) and their inverse

  function DigitChar(d: nat): char
    requires d < 10
  {
    "0123456789"[d]
  }

  predicate IsDigit(c: char)
  {
    '0' <= c <= '9'
  }

  /** The decimal digits of a natural number, without leading zeros. */
  function NatDigits(n: nat): (s: string)
    ensures |s| > 0 && forall i :: 0 <= i < |s| ==> IsDigit(s[i])
  {
    if n < 10 then [DigitChar(n)] else NatDigits(n / 10) + [DigitChar(n % 10)]
  }

  /** `fmt.Sprintf("%d", n)`. */
  function Decimal(n: int): string
  {
    if n < 0 then "-" + NatDigits(-n) else NatDigits(n)
  }

  /** `fmt.Sprintf("%02d", n)`: zero-padded to two characters. */
  function Pad2(n: int): string
  {
    if 0 <= n < 10 then "0" + Decimal(n) else Decimal(n)
  }

  /** The value of a string of decimal digits. */
  function ParseNat(s: string): nat
    requires forall i :: 0 <= i < |s| ==> IsDigit(s[i])
  {
    if s == [] then 0
    else
      var d := s[|s| - 1];
      assert IsDigit(d);
      10 * ParseNat(s[..|s| - 1]) + (d as int - '0' as int)
  }

  lemma {:induction false} ParseNatDigits(n: nat)
    ensures ParseNat(NatDigits(n)) == n
  {
    if n >= 10 {
      var s := NatDigits(n);
      assert s[..|s| - 1] == NatDigits(n / 10);
      ParseNatDigits(n / 10);
    }
  }

  /** A leading zero does not change the value. */
  lemma ParseNatLeadingZero(s: string)
    requires forall i :: 0 <= i < |s| ==> IsDigit(s[i])
    ensures ParseNat("0" + s) == ParseNat(s)
    decreases |s|
  {
    if s != [] {
      assert ("0" + s)[..|"0" + s| - 1] == "0" + s[..|s| - 1];
      ParseNatLeadingZero(s[..|s| - 1]);
    }
  }

  // ---------------------------------------------------------------------
  // ASCII case

  /** `strings.ToLower` on ASCII bytes. */
  function ToLower(s: string): (r: string)
    ensures |r| == |s|
  {
    seq(|s|, i requires 0 <= i < |s| => if 'A' <= s[i] <= 'Z' then (s[i] as int + 32) as char else s[i])
  }
}
