/**
 * FixCommonIssues (internal/formatter/markdown.go), the clean-up pass run on
 * every rendered document: trailing spaces and tabs are cut from each line,
 * every "\n\n\n" is replaced by "\n\n" until none is left (so any run of two
 * or more blank lines becomes one), and the text is made to end with exactly
 * one newline.
 */
module Fixup {
  import opened Text

  const Triple := "\n\n\n"

  predicate IsBlank(c: char)
  {
    c == ' ' || c == '\t'
  }

  /** No line ends in a space or a tab: a blank is always followed by more of its line. */
  predicate NoTrailingBlank(s: string)
  {
    forall i :: 0 <= i < |s| && IsBlank(s[i]) ==> i + 1 < |s| && s[i + 1] != '\n'
  }

  /** The text ends with one newline that is not preceded by another. */
  predicate EndsWithOneNewline(s: string)
  {
    |s| >= 1 && s[|s| - 1] == '\n' && (|s| == 1 || s[|s| - 2] != '\n')
  }

  /** The characters of `s` other than newlines, in order. */
  function Unlined(s: string): string
  {
    if s == [] then [] else (if s[0] == '\n' then [] else [s[0]]) + Unlined(s[1..])
  }

  // ---------------------------------------------------------------------
  // The three stages

  /** The lines of `s`, each without trailing spaces and tabs, joined again. */
  function TrimLines(s: string): string
  {
    Join(TrimEach(Split(s, '\n')), '\n')
  }

  function TrimEach(lines: seq<string>): (r: seq<string>)
    ensures |r| == |lines|
  {
    seq(|lines|, k requires 0 <= k < |lines| => TrimRight(lines[k], " \t"))
  }

  /**
   * The text left once no "\n\n\n" remains: a newline followed by two more
   * newlines is dropped, so every run of three or more newlines becomes two.
   */
  function Squeeze(s: string): string
  {
    if s == [] then []
    else if HasPrefix(s, Triple) then Squeeze(s[1..])
    else [s[0]] + Squeeze(s[1..])
  }

  /** The final step: trailing newlines are cut and exactly one is put back. */
  function Finish(s: string): string
  {
    TrimRight(s, "\n") + "\n"
  }

  /** The text FixCommonIssues returns. */
  function Fixed(s: string): string
  {
    Finish(Squeeze(TrimLines(s)))
  }

  method FixCommonIssues(content: string) returns (r: string)
    ensures r == Fixed(content)
  {
    var parts := Split(content, '\n');
    var lines := new string[|parts|](k requires 0 <= k < |parts| => parts[k]);
    for i := 0 to lines.Length
      invariant forall k :: 0 <= k < i ==> lines[k] == TrimRight(parts[k], " \t")
      invariant forall k :: i <= k < lines.Length ==> lines[k] == parts[k]
    {
      lines[i] := TrimRight(lines[i], " \t");
    }
    assert lines[..] == TrimEach(parts);
    var text := Join(lines[..], '\n');
    while Contains(text, Triple)
      invariant Squeeze(text) == Squeeze(TrimLines(content))
      decreases |text|
    {
      ReplaceShrinks(text);
      ReplaceSqueeze(text);
      text := ReplaceAll(text, Triple, "\n\n");
    }
    SqueezeIdentity(text);
    r := TrimRight(text, "\n") + "\n";
  }

  // ---------------------------------------------------------------------
  // The collapse loop

  /** The replacement never lengthens the text, and shortens it while a triple remains. */
  lemma {:induction false} ReplaceShrinks(s: string)
    ensures |ReplaceAll(s, Triple, "\n\n")| <= |s|
    ensures Contains(s, Triple) ==> |ReplaceAll(s, Triple, "\n\n")| < |s|
    decreases |s|
  {
    if |s| >= |Triple| {
      if s[..3] == Triple {
        ReplaceShrinks(s[3..]);
      } else {
        ReplaceShrinks(s[1..]);
        if Contains(s, Triple) {
          var i :| OccursAt(s, Triple, i);
          assert i != 0;
          assert OccursAt(s[1..], Triple, i - 1);
        }
      }
    }
  }

  /** `s` starts with two newlines. */
  predicate StartsNN(s: string)
  {
    |s| >= 2 && s[0] == '\n' && s[1] == '\n'
  }

  lemma {:induction false} SqueezeStartsNN(s: string)
    ensures StartsNN(Squeeze(s)) <==> StartsNN(s)
    decreases |s|
  {
    if s != [] {
      if HasPrefix(s, Triple) {
        SqueezeStartsNN(s[1..]);
      } else if s[0] == '\n' && |s| >= 2 {
        SqueezeHead(s[1..]);
      }
    }
  }

  /** A leading character that is not a newline is kept. */
  lemma SqueezeHead(s: string)
    requires s != []
    ensures s[0] != '\n' ==> Squeeze(s) == [s[0]] + Squeeze(s[1..])
    ensures Squeeze(s) != [] && (s[0] != '\n' ==> Squeeze(s)[0] == s[0])
  {
    if HasPrefix(s, Triple) {
      SqueezeNonEmpty(s);
    }
  }

  lemma {:induction false} SqueezeNonEmpty(s: string)
    requires s != []
    ensures Squeeze(s) != []
    decreases |s|
  {
    if HasPrefix(s, Triple) {
      SqueezeNonEmpty(s[1..]);
    }
  }

  /** Squeeze of `[c] + x` depends on `x` only through Squeeze(x). */
  lemma SqueezeCons(c: char, x: string)
    ensures Squeeze([c] + x) == if c == '\n' && StartsNN(Squeeze(x)) then Squeeze(x) else [c] + Squeeze(x)
  {
    var s := [c] + x;
    assert s[1..] == x;
    SqueezeStartsNN(x);
    assert HasPrefix(s, Triple) <==> c == '\n' && StartsNN(x);
  }

  lemma {:induction false} SqueezeCongruence(a: string, x: string, y: string)
    requires Squeeze(x) == Squeeze(y)
    ensures Squeeze(a + x) == Squeeze(a + y)
    decreases |a|
  {
    if a == [] {
      assert a + x == x && a + y == y;
    } else {
      var c, ax, ay := a[0], a[1..] + x, a[1..] + y;
      assert a + x == [c] + ax && a + y == [c] + ay;
      assert Squeeze(ax) == Squeeze(ay) by {
        SqueezeCongruence(a[1..], x, y);
      }
      SqueezeCons(c, ax);
      SqueezeCons(c, ay);
    }
  }

  /** One round of ReplaceAll does not change what the loop converges to. */
  lemma {:induction false} ReplaceSqueeze(s: string)
    ensures Squeeze(ReplaceAll(s, Triple, "\n\n")) == Squeeze(s)
    decreases |s|
  {
    if |s| >= 3 {
      if s[..3] == Triple {
        var rest := s[3..];
        ReplaceSqueeze(rest);
        SqueezeCongruence("\n\n", ReplaceAll(rest, Triple, "\n\n"), rest);
        assert s[1..] == "\n\n" + rest;
        assert HasPrefix(s, Triple);
      } else {
        ReplaceSqueeze(s[1..]);
        SqueezeCongruence([s[0]], ReplaceAll(s[1..], Triple, "\n\n"), s[1..]);
        assert [s[0]] + s[1..] == s;
      }
    }
  }

  /** Text without a triple is left alone. */
  lemma {:induction false} SqueezeIdentity(s: string)
    requires !Contains(s, Triple)
    ensures Squeeze(s) == s
    decreases |s|
  {
    if s != [] {
      assert !OccursAt(s, Triple, 0);
      assert forall i :: OccursAt(s[1..], Triple, i) ==> OccursAt(s, Triple, i + 1);
      SqueezeIdentity(s[1..]);
    }
  }

  /** A character put in front of a text without a triple makes none, unless a newline meets a leading pair. */
  lemma NoTripleCons(c: char, t: string)
    requires !Contains(t, Triple)
    requires c == '\n' ==> !StartsNN(t)
    ensures !Contains([c] + t, Triple)
  {
    var u := [c] + t;
    forall i | 0 <= i
      ensures !OccursAt(u, Triple, i)
    {
      if i + 3 > |u| {
      } else if i > 0 {
        assert u[i..i + 3] == t[i - 1..i + 2];
        assert !OccursAt(t, Triple, i - 1);
      } else {
        assert u[0] == c && u[1] == t[0] && u[2] == t[1];
      }
    }
  }

  /** Squeeze leaves no triple behind. */
  lemma {:induction false} SqueezeNoTriple(s: string)
    ensures !Contains(Squeeze(s), Triple)
    decreases |s|
  {
    if s != [] {
      SqueezeNoTriple(s[1..]);
      if !HasPrefix(s, Triple) {
        if s[0] == '\n' {
          SqueezeStartsNN(s[1..]);
          assert !StartsNN(s[1..]);
        }
        NoTripleCons(s[0], Squeeze(s[1..]));
      }
    }
  }

  // ---------------------------------------------------------------------
  // The collapse, run by run

  /** `n` newlines. */
  function Newlines(n: nat): (r: string)
    ensures |r| == n && forall i :: 0 <= i < n ==> r[i] == '\n'
  {
    seq(n, _ => '\n')
  }

  /** The length of the run of newlines `s` starts with. */
  function LeadingNewlines(s: string): (n: nat)
    ensures n <= |s| && s[..n] == Newlines(n)
    ensures n == |s| || s[n] != '\n'
    decreases |s|
  {
    if s != [] && s[0] == '\n' then
      var n := 1 + LeadingNewlines(s[1..]);
      assert s[..n] == [s[0]] + s[1..][..n - 1];
      n
    else 0
  }

  /**
   * The reference form of the collapse, stated on maximal runs: every run of
   * n newlines is kept when n is at most two and becomes exactly two
   * otherwise; every other character is kept, in order.
   */
  function CollapseRuns(s: string): string
    decreases |s|
  {
    if s == [] then []
    else if s[0] != '\n' then [s[0]] + CollapseRuns(s[1..])
    else
      var n := LeadingNewlines(s);
      Newlines(if n <= 2 then n else 2) + CollapseRuns(s[n..])
  }

  /** Squeeze works piecewise across a boundary that no run of newlines crosses. */
  lemma {:induction false} SqueezeSplit(a: string, b: string)
    requires (a == [] || a[|a| - 1] != '\n') || (b == [] || b[0] != '\n')
    ensures Squeeze(a + b) == Squeeze(a) + Squeeze(b)
    decreases |a|
  {
    if a == [] {
      assert a + b == b;
    } else {
      assert (a + b)[1..] == a[1..] + b;
      TriplePrefixAppend(a, b);
      SqueezeSplit(a[1..], b);
    }
  }

  /** Whether a triple starts the text is decided inside `a` when no run crosses into `b`. */
  lemma TriplePrefixAppend(a: string, b: string)
    requires a != []
    requires a[|a| - 1] != '\n' || (b == [] || b[0] != '\n')
    ensures HasPrefix(a + b, Triple) <==> HasPrefix(a, Triple)
  {
    var s := a + b;
    if |a| >= 3 {
      assert s[..3] == a[..3];
    } else if |s| >= 3 {
      if a[|a| - 1] != '\n' {
        assert s[..3][|a| - 1] == a[|a| - 1];
      } else {
        assert s[..3][|a|] == b[0];
      }
    }
  }

  /** A run of n newlines on its own collapses to at most two. */
  lemma {:induction false} SqueezeNewlines(n: nat)
    ensures Squeeze(Newlines(n)) == Newlines(if n <= 2 then n else 2)
  {
    if n > 0 {
      assert Newlines(n)[1..] == Newlines(n - 1);
      SqueezeNewlines(n - 1);
      if n <= 2 {
        assert Newlines(n) == ['\n'] + Newlines(n - 1);
      } else {
        assert HasPrefix(Newlines(n), Triple);
      }
    }
  }

  /** A run of n newlines between text that does not touch it becomes min(n, 2) newlines. */
  lemma SqueezeRun(x: string, n: nat, y: string)
    requires x == [] || x[|x| - 1] != '\n'
    requires y == [] || y[0] != '\n'
    ensures Squeeze(x + Newlines(n) + y) == Squeeze(x) + Newlines(if n <= 2 then n else 2) + Squeeze(y)
  {
    SqueezeAround(x, Newlines(n), y);
    SqueezeNewlines(n);
  }

  lemma SqueezeAround(x: string, m: string, y: string)
    requires x == [] || x[|x| - 1] != '\n'
    requires y == [] || y[0] != '\n'
    ensures Squeeze(x + m + y) == Squeeze(x) + Squeeze(m) + Squeeze(y)
  {
    var my := m + y;
    assert x + m + y == x + my;
    assert Squeeze(my) == Squeeze(m) + Squeeze(y) by {
      SqueezeSplit(m, y);
    }
    assert Squeeze(x + my) == Squeeze(x) + Squeeze(my) by {
      SqueezeSplit(x, my);
    }
    ConcatAssoc(Squeeze(x), Squeeze(m), Squeeze(y));
  }

  /** The replace-until-none loop computes the run-by-run collapse. */
  lemma {:induction false} SqueezeCollapse(s: string)
    ensures Squeeze(s) == CollapseRuns(s)
    decreases |s|
  {
    if s != [] {
      if s[0] != '\n' {
        SqueezeHead(s);
        SqueezeCollapse(s[1..]);
      } else {
        var n := LeadingNewlines(s);
        assert s == Newlines(n) + s[n..];
        SqueezeSplit(Newlines(n), s[n..]);
        SqueezeNewlines(n);
        SqueezeCollapse(s[n..]);
      }
    }
  }

  // ---------------------------------------------------------------------
  // No line ends in a blank

  lemma NoTrailingBlankJoin(line: string, rest: string)
    requires NoChar(line, '\n') && (line == [] || !IsBlank(line[|line| - 1]))
    requires NoTrailingBlank(rest)
    ensures NoTrailingBlank(line + "\n" + rest)
  {
    var s := line + "\n" + rest;
    forall i | 0 <= i < |s| && IsBlank(s[i]) ensures i + 1 < |s| && s[i + 1] != '\n' {
      if i > |line| {
        assert s[i] == rest[i - |line| - 1];
      }
    }
  }

  lemma {:induction false} TrimLinesNoTrailingBlank(lines: seq<string>)
    requires forall k :: 0 <= k < |lines| ==> NoChar(lines[k], '\n')
    ensures NoTrailingBlank(Join(TrimEach(lines), '\n'))
    decreases |lines|
  {
    var t := TrimEach(lines);
    if |lines| == 1 {
      assert Join(t, '\n') == t[0];
    } else if |lines| > 1 {
      assert TrimEach(lines[1..]) == t[1..];
      TrimLinesNoTrailingBlank(lines[1..]);
      assert t[0] == lines[0][..|t[0]|];
      NoTrailingBlankJoin(t[0], Join(t[1..], '\n'));
    }
  }

  /** Squeeze only drops newlines that are followed by a newline. */
  lemma {:induction false} SqueezeNoTrailingBlank(s: string)
    requires NoTrailingBlank(s)
    ensures NoTrailingBlank(Squeeze(s))
    decreases |s|
  {
    if s != [] {
      assert NoTrailingBlank(s[1..]) by {
        forall i | 0 <= i < |s[1..]| && IsBlank(s[1..][i]) ensures i + 1 < |s[1..]| && s[1..][i + 1] != '\n' {
          assert s[i + 1] == s[1..][i];
        }
      }
      SqueezeNoTrailingBlank(s[1..]);
      if !HasPrefix(s, Triple) {
        var t := Squeeze(s[1..]);
        if IsBlank(s[0]) {
          SqueezeHead(s[1..]);
        }
        forall i | 0 <= i < |[s[0]] + t| && IsBlank(([s[0]] + t)[i]) ensures i + 1 < |[s[0]] + t| && ([s[0]] + t)[i + 1] != '\n' {
          if i > 0 {
            assert ([s[0]] + t)[i] == t[i - 1];
          }
        }
      }
    }
  }

  lemma FinishNoTrailingBlank(s: string)
    requires NoTrailingBlank(s)
    ensures NoTrailingBlank(Finish(s))
  {
    var t := TrimRight(s, "\n");
    var f := t + "\n";
    forall i | 0 <= i < |f| && IsBlank(f[i]) ensures i + 1 < |f| && f[i + 1] != '\n' {
      assert i < |t| && s[i] == t[i];
      if i + 1 == |t| {
        assert i + 1 < |s| ==> s[i + 1] in "\n";
      } else {
        assert f[i + 1] == s[i + 1];
      }
    }
  }

  // ---------------------------------------------------------------------
  // No triple after Finish, and exactly one final newline

  lemma FinishKeepsNoTriple(s: string)
    requires !Contains(s, Triple)
    ensures !Contains(Finish(s), Triple)
    ensures EndsWithOneNewline(Finish(s))
  {
    var t := TrimRight(s, "\n");
    var f := t + "\n";
    forall i | 0 <= i && i + 3 <= |f| ensures !OccursAt(f, Triple, i) {
      if i + 3 <= |t| {
        assert f[i..i + 3] == t[i..i + 3] == s[i..i + 3];
        assert !OccursAt(s, Triple, i);
      } else {
        assert i + 1 == |t| - 1;
        assert f[i + 1] == t[|t| - 1] != '\n';
        assert f[i..i + 3][1] != '\n';
      }
    }
  }

  // ---------------------------------------------------------------------
  // Newlines are the only characters the last two stages remove

  lemma {:induction false} UnlinedAppend(a: string, b: string)
    ensures Unlined(a + b) == Unlined(a) + Unlined(b)
    decreases |a|
  {
    if a != [] {
      assert (a + b)[1..] == a[1..] + b;
      UnlinedAppend(a[1..], b);
    } else {
      assert a + b == b;
    }
  }

  lemma {:induction false} SqueezeUnlined(s: string)
    ensures Unlined(Squeeze(s)) == Unlined(s)
    decreases |s|
  {
    if s != [] {
      SqueezeUnlined(s[1..]);
      if !HasPrefix(s, Triple) {
        UnlinedAppend([s[0]], Squeeze(s[1..]));
      }
    }
  }

  lemma {:induction false} UnlinedNewlines(s: string)
    requires forall i :: 0 <= i < |s| ==> s[i] == '\n'
    ensures Unlined(s) == []
    decreases |s|
  {
    if s != [] {
      UnlinedNewlines(s[1..]);
    }
  }

  lemma FinishUnlined(s: string)
    ensures Unlined(Finish(s)) == Unlined(s)
  {
    var t := TrimRight(s, "\n");
    assert s == t + s[|t|..];
    UnlinedAppend(t, s[|t|..]);
    UnlinedNewlines(s[|t|..]);
    UnlinedAppend(t, "\n");
    UnlinedNewlines("\n");
  }

  // ---------------------------------------------------------------------
  // What FixCommonIssues guarantees

  /**
   * The output of FixCommonIssues has no line ending in a space or tab, no
   * "\n\n\n", ends with exactly one newline, and keeps every character of
   * the trimmed lines other than newlines, in order.
   */
  lemma FixedProperties(s: string)
    ensures NoTrailingBlank(Fixed(s))
    ensures !Contains(Fixed(s), Triple)
    ensures EndsWithOneNewline(Fixed(s))
    ensures Unlined(Fixed(s)) == Unlined(TrimLines(s))
    ensures Fixed(s) == Finish(CollapseRuns(TrimLines(s)))
  {
    SqueezeCollapse(TrimLines(s));
    var lines := Split(s, '\n');
    TrimLinesNoTrailingBlank(lines);
    SqueezeNoTrailingBlank(TrimLines(s));
    FinishNoTrailingBlank(Squeeze(TrimLines(s)));
    SqueezeNoTriple(TrimLines(s));
    FinishKeepsNoTriple(Squeeze(TrimLines(s)));
    SqueezeUnlined(TrimLines(s));
    FinishUnlined(Squeeze(TrimLines(s)));
  }

  /** The lines of a text without trailing blanks have none either. */
  lemma {:induction false} SplitNoTrailingBlank(s: string)
    requires NoTrailingBlank(s)
    ensures forall k :: 0 <= k < |Split(s, '\n')| ==> TrimRight(Split(s, '\n')[k], " \t") == Split(s, '\n')[k]
    decreases |s|
  {
    if s != [] {
      assert NoTrailingBlank(s[1..]) by {
        forall i | 0 <= i < |s[1..]| && IsBlank(s[1..][i]) ensures i + 1 < |s[1..]| && s[1..][i + 1] != '\n' {
          assert s[i + 1] == s[1..][i];
        }
      }
      SplitNoTrailingBlank(s[1..]);
      var rest := Split(s[1..], '\n');
      if s[0] != '\n' {
        var first := [s[0]] + rest[0];
        if rest[0] == [] {
          assert s[1..] != [] ==> s[1] == '\n';
          assert !IsBlank(s[0]);
          assert TrimRight(first, " \t") == first;
        } else {
          assert first[|first| - 1] == rest[0][|rest[0]| - 1];
          assert TrimRight(first, " \t") == first;
        }
      }
    }
  }

  /** FixCommonIssues is idempotent: a fixed document is left unchanged. */
  lemma FixedIdempotent(s: string)
    ensures Fixed(Fixed(s)) == Fixed(s)
  {
    FixedProperties(s);
    FixedOfClean(Fixed(s));
  }

  /** A text with no trailing blank, no triple and one final newline is its own fix. */
  lemma FixedOfClean(y: string)
    requires NoTrailingBlank(y) && !Contains(y, Triple) && EndsWithOneNewline(y)
    ensures Fixed(y) == y
  {
    TrimLinesClean(y);
    SqueezeIdentity(y);
    FinishClean(y);
  }

  lemma TrimLinesClean(y: string)
    requires NoTrailingBlank(y)
    ensures TrimLines(y) == y
  {
    SplitNoTrailingBlank(y);
    assert TrimEach(Split(y, '\n')) == Split(y, '\n');
    JoinSplit(y, '\n');
  }

  lemma FinishClean(y: string)
    requires EndsWithOneNewline(y)
    ensures Finish(y) == y
  {
    var t := y[..|y| - 1];
    assert y == t + "\n";
    assert t == [] || t[|t| - 1] != '\n';
    assert TrimRight(y, "\n") == t;
  }
}
