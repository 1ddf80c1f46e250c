/**
 * The documentation helpers: the heading-anchor slug `toAnchorId` and the
 * platform-dependent executable name `normalizeCommand`. Each regular
 * expression replacement of the slug is one function here, with the
 * leftmost, non-overlapping matching of a global JavaScript `replace`.
 */
module Util {

  /** The combining diacritical marks, U+0300 to U+036F. */
  predicate IsCombining(c: char) {
    '\U{0300}' <= c <= '\U{036F}'
  }

  predicate IsBracket(c: char) {
    c == '[' || c == ']'
  }

  predicate IsBrace(c: char) {
    c == '{' || c == '}'
  }

  /** `[a-z0-9]`. */
  predicate IsAnchorAlnum(c: char) {
    'a' <= c <= 'z' || '0' <= c <= '9'
  }

  predicate IsAnchorChar(c: char) {
    IsAnchorAlnum(c) || c == '-'
  }

  predicate NoDoubleDash(s: string) {
    forall i :: 0 <= i < |s| - 1 ==> !(s[i] == '-' && s[i + 1] == '-')
  }

  /** `s.replace(/[...]/g, '')`: every character of the class is deleted, the others kept in order. */
  function Without(s: string, drop: char -> bool): (r: string)
    ensures |r| <= |s|
    decreases |s|
  {
    if s == [] then []
    else (if drop(s[0]) then [] else [s[0]]) + Without(s[1..], drop)
  }

  /** Exactly the characters of `s` outside the class remain. */
  lemma {:induction false} WithoutMembers(s: string, drop: char -> bool, c: char)
    ensures c in Without(s, drop) <==> c in s && !drop(c)
    decreases |s|
  {
    if s != [] {
      WithoutMembers(s[1..], drop, c);
      assert s == [s[0]] + s[1..];
    }
  }

  lemma {:induction false} WithoutAppend(a: string, b: string, drop: char -> bool)
    ensures Without(a + b, drop) == Without(a, drop) + Without(b, drop)
    decreases |a|
  {
    if a != [] {
      assert (a + b)[1..] == a[1..] + b;
      WithoutAppend(a[1..], b, drop);
    } else {
      assert a + b == b;
    }
  }

  lemma {:induction false} WithoutIdempotent(s: string, drop: char -> bool)
    ensures Without(Without(s, drop), drop) == Without(s, drop)
    decreases |s|
  {
    if s != [] {
      var head := if drop(s[0]) then [] else [s[0]];
      WithoutIdempotent(s[1..], drop);
      WithoutAppend(head, Without(s[1..], drop), drop);
      if !drop(s[0]) {
        assert [s[0]][1..] == [];
      }
    }
  }

  /** The position of the first `c` in `s`. */
  function IndexOf(s: string, c: char): (i: nat)
    requires c in s
    ensures i < |s| && s[i] == c && c !in s[..i]
    decreases |s|
  {
    if s[0] == c then 0
    else
      var k := IndexOf(s[1..], c);
      assert s[..k + 1] == [s[0]] + s[1..][..k];
      k + 1
  }

  /**
   * `.replace(/\[[^\]]*]/g, m => m.replace(/[[\]]/g, ''))`: from a `[` to
   * the next `]`, the match loses its brackets (including any `[` inside);
   * a `[` with no `]` after it is kept.
   */
  function DropBrackets(s: string): string
    decreases |s|
  {
    if s == [] then []
    else if s[0] == '[' && ']' in s[1..] then
      var j := IndexOf(s[1..], ']');
      Without(s[1..j + 1], IsBracket) + DropBrackets(s[j + 2..])
    else [s[0]] + DropBrackets(s[1..])
  }

  lemma WithoutCons(c: char, t: string, drop: char -> bool)
    ensures Without([c] + t, drop) == (if drop(c) then [] else [c]) + Without(t, drop)
  {
    assert ([c] + t)[1..] == t;
  }

  /** Only bracket characters are removed: every other character survives, in order. */
  lemma {:induction false} DropBracketsKeepsContent(s: string)
    ensures Without(DropBrackets(s), IsBracket) == Without(s, IsBracket)
    decreases |s|
  {
    if s != [] {
      if s[0] == '[' && ']' in s[1..] {
        var j := IndexOf(s[1..], ']');
        var mid := s[1..j + 1];
        var rest := s[j + 2..];
        DropBracketsKeepsContent(rest);
        WithoutAppend(Without(mid, IsBracket), DropBrackets(rest), IsBracket);
        WithoutIdempotent(mid, IsBracket);
        BracketedContent(s, j);
      } else {
        DropBracketsKeepsContent(s[1..]);
        WithoutCons(s[0], DropBrackets(s[1..]), IsBracket);
        WithoutCons(s[0], s[1..], IsBracket);
        assert s == [s[0]] + s[1..];
      }
    }
  }

  /** Dropping the brackets of `s` where `s[0]` opens and `s[j + 1]` closes leaves the text between and after. */
  lemma BracketedContent(s: string, j: int)
    requires 0 <= j && j + 1 < |s| && s[0] == '[' && s[j + 1] == ']'
    ensures Without(s, IsBracket) == Without(s[1..j + 1], IsBracket) + Without(s[j + 2..], IsBracket)
  {
    var mid := s[1..j + 1];
    var rest := s[j + 2..];
    assert s == [s[0]] + s[1..];
    assert s[1..] == mid + s[j + 1..];
    assert s[j + 1..] == [s[j + 1]] + rest;
    WithoutCons(s[0], s[1..], IsBracket);
    WithoutAppend(mid, s[j + 1..], IsBracket);
    WithoutCons(s[j + 1], rest, IsBracket);
  }

  /** The first `c` in `x + [c] + y` is the one after `x` when `x` has none. */
  lemma {:induction false} IndexOfAfter(x: string, c: char, y: string)
    requires c !in x
    ensures IndexOf(x + [c] + y, c) == |x|
    decreases |x|
  {
    if x != [] {
      assert (x + [c] + y)[1..] == x[1..] + [c] + y;
      IndexOfAfter(x[1..], c, y);
    }
  }

  /** A bracketed part keeps its content without brackets, and what follows is processed on. */
  lemma DropBracketsPair(x: string, y: string)
    requires ']' !in x
    ensures DropBrackets("[" + x + "]" + y) == Without(x, IsBracket) + DropBrackets(y)
  {
    var s := "[" + x + "]" + y;
    assert s[1..] == x + [']'] + y;
    IndexOfAfter(x, ']', y);
    assert s[1..|x| + 1] == x;
    assert s[|x| + 2..] == y;
  }

  /**
   * Text before the first `[` is copied unchanged, and what follows is
   * processed on. With `DropBracketsPair` and `DropBracketsUnclosed` this
   * fixes the result on every text.
   */
  lemma {:induction false} DropBracketsCopies(x: string, y: string)
    requires '[' !in x
    ensures DropBrackets(x + y) == x + DropBrackets(y)
    decreases |x|
  {
    if x == [] {
      assert x + y == y;
    } else {
      var rest := x[1..] + y;
      assert x + y == [x[0]] + rest;
      assert '[' !in x[1..];
      DropBracketsCopies(x[1..], y);
      assert x + DropBrackets(y) == [x[0]] + (x[1..] + DropBrackets(y));
    }
  }

  /** Without a closing bracket nothing changes, an opening bracket included. */
  lemma {:induction false} DropBracketsUnclosed(s: string)
    requires ']' !in s
    ensures DropBrackets(s) == s
    decreases |s|
  {
    if s != [] {
      assert ']' !in s[1..];
      DropBracketsUnclosed(s[1..]);
      assert s == [s[0]] + s[1..];
    }
  }

  /** The rest of `s` after its leading characters outside `[a-z0-9]`. */
  function SkipNonAlnum(s: string): (r: string)
    ensures |r| <= |s| && r == s[|s| - |r|..]
    ensures r != [] ==> IsAnchorAlnum(r[0])
    ensures s != [] && !IsAnchorAlnum(s[0]) ==> |r| < |s|
    decreases |s|
  {
    if s == [] || IsAnchorAlnum(s[0]) then s else SkipNonAlnum(s[1..])
  }

  /** `.replace(/[^a-z0-9]+/g, '-')`: every maximal run outside `[a-z0-9]` becomes one `-`. */
  function CollapseNonAlnum(s: string): (r: string)
    ensures forall i :: 0 <= i < |r| ==> IsAnchorChar(r[i])
    ensures NoDoubleDash(r)
    ensures s != [] && IsAnchorAlnum(s[0]) ==> r != [] && r[0] == s[0]
    decreases |s|
  {
    if s == [] then []
    else if IsAnchorAlnum(s[0]) then [s[0]] + CollapseNonAlnum(s[1..])
    else "-" + CollapseNonAlnum(SkipNonAlnum(s))
  }

  predicate IsOutsideAnchorAlnum(c: char) {
    !IsAnchorAlnum(c)
  }

  predicate IsDash(c: char) {
    c == '-'
  }

  /** Skipping a run outside `[a-z0-9]` loses no character of the class. */
  lemma {:induction false} SkipNonAlnumKeepsAlnum(s: string)
    ensures Without(SkipNonAlnum(s), IsOutsideAnchorAlnum) == Without(s, IsOutsideAnchorAlnum)
    decreases |s|
  {
    if s != [] && !IsAnchorAlnum(s[0]) {
      SkipNonAlnumKeepsAlnum(s[1..]);
    }
  }

  /** The run skipped is exactly the one in front of the next `[a-z0-9]` character. */
  lemma {:induction false} SkipNonAlnumRun(x: string, b: string)
    requires forall i :: 0 <= i < |x| ==> !IsAnchorAlnum(x[i])
    requires b == [] || IsAnchorAlnum(b[0])
    ensures SkipNonAlnum(x + b) == b
    decreases |x|
  {
    if x != [] {
      assert (x + b)[1..] == x[1..] + b;
      SkipNonAlnumRun(x[1..], b);
    }
  }

  lemma ConsAppend(a: string, t: string)
    requires a != []
    ensures a + t == [a[0]] + (a[1..] + t)
  {
    assert a == [a[0]] + a[1..];
  }

  /** A leading `[a-z0-9]` character is copied. */
  lemma CollapseNonAlnumCons(c: char, rest: string)
    requires IsAnchorAlnum(c)
    ensures CollapseNonAlnum([c] + rest) == [c] + CollapseNonAlnum(rest)
  {
    assert ([c] + rest)[1..] == rest;
  }

  /** A leading maximal run outside `[a-z0-9]` becomes exactly one `-`. */
  lemma CollapseNonAlnumLeadingRun(x: string, b: string)
    requires x != [] && forall i :: 0 <= i < |x| ==> !IsAnchorAlnum(x[i])
    requires b == [] || IsAnchorAlnum(b[0])
    ensures CollapseNonAlnum(x + b) == "-" + CollapseNonAlnum(b)
  {
    assert (x + b)[0] == x[0];
    SkipNonAlnumRun(x, b);
  }

  /** A leading word made only of `[a-z0-9]` is copied unchanged (with `r == []`: such text is left alone). */
  lemma {:induction false} CollapseNonAlnumWordPrefix(a: string, r: string)
    requires forall i :: 0 <= i < |a| ==> IsAnchorAlnum(a[i])
    ensures CollapseNonAlnum(a + r) == a + CollapseNonAlnum(r)
    decreases |a|
  {
    if a == [] {
      assert a + r == r;
    } else {
      var rest := a[1..] + r;
      ConsAppend(a, r);
      CollapseNonAlnumCons(a[0], rest);
      CollapseNonAlnumWordPrefix(a[1..], r);
      ConsAppend(a, CollapseNonAlnum(r));
    }
  }

  /**
   * A word, then a maximal run outside `[a-z0-9]`: the word is kept and the
   * run becomes exactly one `-`, before whatever the rest becomes. Applied
   * run by run, this fixes the result on every text.
   */
  lemma CollapseNonAlnumRun(a: string, x: string, b: string)
    requires forall i :: 0 <= i < |a| ==> IsAnchorAlnum(a[i])
    requires x != [] && forall i :: 0 <= i < |x| ==> !IsAnchorAlnum(x[i])
    requires b == [] || IsAnchorAlnum(b[0])
    ensures CollapseNonAlnum(a + (x + b)) == a + ("-" + CollapseNonAlnum(b))
  {
    CollapseNonAlnumWordPrefix(a, x + b);
    CollapseNonAlnumLeadingRun(x, b);
  }

  /** Apart from the dashes it inserts, the result is the `[a-z0-9]` characters of the text, in order. */
  lemma {:induction false} CollapseNonAlnumKeepsAlnum(s: string)
    ensures Without(CollapseNonAlnum(s), IsDash) == Without(s, IsOutsideAnchorAlnum)
    decreases |s|
  {
    if s != [] {
      if IsAnchorAlnum(s[0]) {
        CollapseNonAlnumKeepsAlnum(s[1..]);
        WithoutAppend([s[0]], CollapseNonAlnum(s[1..]), IsDash);
      } else {
        CollapseNonAlnumKeepsAlnum(SkipNonAlnum(s));
        SkipNonAlnumKeepsAlnum(s);
        WithoutAppend("-", CollapseNonAlnum(SkipNonAlnum(s)), IsDash);
      }
    }
  }

  /** The rest of `s` after its leading dashes. */
  function SkipDashes(s: string): (r: string)
    ensures |r| <= |s| && r == s[|s| - |r|..]
    ensures r != [] ==> r[0] != '-'
    ensures s != [] && s[0] == '-' ==> |r| < |s|
    decreases |s|
  {
    if s == [] || s[0] != '-' then s else SkipDashes(s[1..])
  }

  /** `.replace(/-+/g, '-')`: every run of dashes becomes one. */
  function CollapseDashes(s: string): string
    decreases |s|
  {
    if s == [] then []
    else if s[0] == '-' then "-" + CollapseDashes(SkipDashes(s))
    else [s[0]] + CollapseDashes(s[1..])
  }

  /** On text without a double dash the dash-collapsing step changes nothing. */
  lemma {:induction false} CollapseDashesNoop(s: string)
    requires NoDoubleDash(s)
    ensures CollapseDashes(s) == s
    decreases |s|
  {
    if s != [] {
      assert NoDoubleDash(s[1..]) by {
        forall i | 0 <= i < |s[1..]| - 1
          ensures !(s[1..][i] == '-' && s[1..][i + 1] == '-')
        {
          assert s[1..][i] == s[i + 1] && s[1..][i + 1] == s[i + 2];
        }
      }
      CollapseDashesNoop(s[1..]);
      if s[0] == '-' {
        if |s| > 1 {
          assert s[1] != '-';
        }
        assert SkipDashes(s) == SkipDashes(s[1..]) == s[1..];
      }
      assert s == [s[0]] + s[1..];
    }
  }

  /** Runs of dashes are collapsed: no double dash is left, and a first character other than `-` stays first. */
  lemma {:induction false} CollapseDashesShape(s: string)
    ensures NoDoubleDash(CollapseDashes(s))
    ensures s != [] && s[0] != '-' ==> CollapseDashes(s) != [] && CollapseDashes(s)[0] == s[0]
    decreases |s|
  {
    if s != [] {
      if s[0] == '-' {
        var rest := SkipDashes(s);
        CollapseDashesShape(rest);
        var r := CollapseDashes(rest);
        assert r != [] ==> r[0] != '-';
        assert CollapseDashes(s) == "-" + r;
      } else {
        CollapseDashesShape(s[1..]);
        assert CollapseDashes(s) == [s[0]] + CollapseDashes(s[1..]);
      }
    }
  }

  /** Collapsing dashes brings in no character that was not there. */
  lemma {:induction false} CollapseDashesAddsNothing(s: string)
    ensures forall c :: c in CollapseDashes(s) ==> c in s
    decreases |s|
  {
    if s != [] {
      if s[0] == '-' {
        var rest := SkipDashes(s);
        CollapseDashesAddsNothing(rest);
        assert forall c :: c in rest ==> c in s;
      } else {
        CollapseDashesAddsNothing(s[1..]);
        assert forall c :: c in s[1..] ==> c in s;
      }
    }
  }

  /** `.replace(/^-|-$/g, '')`: one leading dash, then one trailing dash, are removed. */
  function TrimDash(s: string): (r: string)
    ensures |r| <= |s|
  {
    var s1 := if |s| > 0 && s[0] == '-' then s[1..] else s;
    if |s1| > 0 && s1[|s1| - 1] == '-' then s1[..|s1| - 1] else s1
  }

  /**
   * Trimming removes exactly one dash at each end that has one: a middle
   * that neither starts nor ends with `-` comes back unchanged, with or
   * without a dash on either side.
   */
  lemma TrimDashKeepsMiddle(m: string)
    requires m == [] || (m[0] != '-' && m[|m| - 1] != '-')
    ensures TrimDash(m) == m
    ensures TrimDash("-" + m) == m
    ensures TrimDash(m + "-") == m
    ensures TrimDash("-" + m + "-") == m
  {
    assert ("-" + m)[1..] == m;
    assert (m + "-")[..|m|] == m;
    var both := "-" + m + "-";
    assert both[1..] == m + "-";
  }

  /** Trimming a text without double dashes leaves no dash at either end; it keeps a slice of the text. */
  lemma TrimDashShape(s: string)
    requires NoDoubleDash(s)
    ensures var r := TrimDash(s);
      && NoDoubleDash(r)
      && (forall i :: 0 <= i < |r| ==> r[i] in s)
      && (r != [] ==> r[0] != '-' && r[|r| - 1] != '-')
  {
    var s1 := if |s| > 0 && s[0] == '-' then s[1..] else s;
    var r := TrimDash(s);
    if |s| > 1 && s[0] == '-' {
      assert s[1] != '-';
    }
    assert forall i :: 0 <= i < |s1| ==> s1[i] in s;
    assert forall i :: 0 <= i < |s1| - 1 ==> !(s1[i] == '-' && s1[i + 1] == '-');
    if |s1| > 1 && s1[|s1| - 1] == '-' {
      assert s1[|s1| - 2] != '-';
    }
  }

  /**
   * `toAnchorId`. `lower` and `nfkd` stand for `toLowerCase` and
   * `normalize('NFKD')`, which are not modelled.
   */
  function ToAnchorId(title: string, lower: string -> string, nfkd: string -> string): string {
    var s := Without(nfkd(lower(title)), IsCombining);
    var s := DropBrackets(s);
    var s := Without(s, IsBrace);
    var s := CollapseNonAlnum(s);
    var s := CollapseDashes(s);
    TrimDash(s)
  }

  /**
   * Whatever the case mapping and normalisation do, an anchor is made of
   * `[a-z0-9-]`, never has two dashes in a row, and neither starts nor ends
   * with a dash.
   */
  lemma ToAnchorIdShape(title: string, lower: string -> string, nfkd: string -> string)
    ensures var id := ToAnchorId(title, lower, nfkd);
      && (forall i :: 0 <= i < |id| ==> IsAnchorChar(id[i]))
      && NoDoubleDash(id)
      && (id != [] ==> id[0] != '-' && id[|id| - 1] != '-')
  {
    var collapsed := CollapseNonAlnum(Without(DropBrackets(Without(nfkd(lower(title)), IsCombining)), IsBrace));
    CollapseDashesNoop(collapsed);
    TrimDashShape(collapsed);
  }

  /**
   * `normalizeCommand`: on `win32`, `pandoc`, `xelatex` and `mmdc` in any
   * letter case get their Windows file names; every other name, and every
   * name on another platform, is returned as given. `lower` stands for
   * `toLowerCase`.
   */
  function NormalizeCommand(platform: string, lower: string -> string, cmd: string): (r: string)
    ensures platform != "win32" ==> r == cmd
    ensures r == cmd || r == "pandoc.exe" || r == "xelatex.exe" || r == "mmdc.cmd"
  {
    if platform == "win32" then
      if lower(cmd) == "pandoc" then "pandoc.exe"
      else if lower(cmd) == "xelatex" then "xelatex.exe"
      else if lower(cmd) == "mmdc" then "mmdc.cmd"
      else cmd
    else cmd
  }

  /** The Windows mapping looks only at the lowercased name: any spelling of a known tool maps alike. */
  lemma NormalizeCommandIgnoresCase(lower: string -> string, a: string, b: string)
    requires lower(a) == lower(b)
    requires lower(a) in {"pandoc", "xelatex", "mmdc"}
    ensures NormalizeCommand("win32", lower, a) == NormalizeCommand("win32", lower, b)
  {
  }

  /** On Windows exactly the three known tool names are rewritten, each to its own file name. */
  lemma NormalizeCommandWin32(lower: string -> string, cmd: string)
    ensures lower(cmd) == "pandoc" ==> NormalizeCommand("win32", lower, cmd) == "pandoc.exe"
    ensures lower(cmd) == "xelatex" ==> NormalizeCommand("win32", lower, cmd) == "xelatex.exe"
    ensures lower(cmd) == "mmdc" ==> NormalizeCommand("win32", lower, cmd) == "mmdc.cmd"
    ensures lower(cmd) !in {"pandoc", "xelatex", "mmdc"} ==> NormalizeCommand("win32", lower, cmd) == cmd
  {
  }
}
