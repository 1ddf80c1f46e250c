/**
 * What the two Mermaid ERD generators share: the table-name sanitiser, the
 * text of one column line and one relation line, and the fixed mapping from
 * TypeORM relation types to Mermaid cardinality markers.
 */
module Erd {

  /** The characters `[A-Za-z0-9_]` that the sanitising regex leaves alone. */
  predicate IsWordChar(c: char) {
    'A' <= c <= 'Z' || 'a' <= c <= 'z' || '0' <= c <= '9' || c == '_'
  }

  /** The characters a sanitised table name is made of: `[A-Z0-9_]`. */
  predicate IsTableChar(c: char) {
    'A' <= c <= 'Z' || '0' <= c <= '9' || c == '_'
  }

  /** Word characters are kept; every other character becomes `_`. */
  function ReplaceNonWord(s: string): (r: string)
    ensures |r| == |s|
    ensures forall i :: 0 <= i < |r| ==> IsWordChar(r[i])
    ensures forall i :: 0 <= i < |s| && IsWordChar(s[i]) ==> r[i] == s[i]
    ensures forall i :: 0 <= i < |s| && !IsWordChar(s[i]) ==> r[i] == '_'
  {
    seq(|s|, i requires 0 <= i < |s| => if IsWordChar(s[i]) then s[i] else '_')
  }

  function UpperAscii(c: char): char {
    if 'a' <= c <= 'z' then (c as int - 32) as char else c
  }

  /**
   * `.toUpperCase()`, applied here only to text that `ReplaceNonWord` has
   * already reduced to ASCII, where it maps `a`-`z` to `A`-`Z`.
   */
  function ToUpperCase(s: string): (r: string)
    ensures |r| == |s|
    ensures forall i :: 0 <= i < |s| && 'a' <= s[i] <= 'z' ==> r[i] as int == s[i] as int - 32
    ensures forall i :: 0 <= i < |s| && !('a' <= s[i] <= 'z') ==> r[i] == s[i]
  {
    seq(|s|, i requires 0 <= i < |s| => UpperAscii(s[i]))
  }

  /** `toTableName` of both generators. */
  function ToTableName(name: string): (t: string)
    ensures |t| == |name|
    ensures forall i :: 0 <= i < |t| ==> IsTableChar(t[i])
  {
    ToUpperCase(ReplaceNonWord(name))
  }

  /**
   * Character by character: a lower-case ASCII letter becomes its upper-case
   * letter, `[A-Z0-9_]` is kept, and every other character becomes `_`.
   */
  lemma ToTableNameChars(name: string)
    ensures var t := ToTableName(name);
      && (forall i :: 0 <= i < |name| && 'a' <= name[i] <= 'z' ==> t[i] as int == name[i] as int - 32)
      && (forall i :: 0 <= i < |name| && IsTableChar(name[i]) ==> t[i] == name[i])
      && (forall i :: 0 <= i < |name| && !IsWordChar(name[i]) ==> t[i] == '_')
  {
  }

  /** Sanitising a sanitised name changes nothing. */
  lemma ToTableNameIdempotent(name: string)
    ensures ToTableName(ToTableName(name)) == ToTableName(name)
  {
    var t := ToTableName(name);
    assert forall i :: 0 <= i < |t| ==> ToTableName(t)[i] == t[i];
  }

  /** Exactly the names already made of `[A-Z0-9_]` come through unchanged. */
  lemma ToTableNameFixedPoints(name: string)
    ensures ToTableName(name) == name <==> forall i :: 0 <= i < |name| ==> IsTableChar(name[i])
  {
    if forall i :: 0 <= i < |name| ==> IsTableChar(name[i]) {
      assert forall i :: 0 <= i < |name| ==> ToTableName(name)[i] == name[i];
    }
  }

  /** Letter case does not matter to the sanitiser: `a`-`z` and `A`-`Z` give the same table name. */
  lemma ToTableNameIgnoresCase(name: string)
    ensures ToTableName(ToUpperCase(name)) == ToTableName(name)
  {
    var l := ToTableName(ToUpperCase(name));
    assert forall i :: 0 <= i < |name| ==> l[i] == ToTableName(name)[i];
  }

  /** `c` and `d` are the same ASCII letter in the two cases. */
  predicate CaseVariants(c: char, d: char) {
    ('a' <= c <= 'z' && d as int == c as int - 32) || ('a' <= d <= 'z' && c as int == d as int - 32)
  }

  /** Two names that differ only in the letter case of some ASCII letters give the same table name. */
  lemma ToTableNameCaseInsensitive(a: string, b: string)
    requires |a| == |b|
    requires forall i :: 0 <= i < |a| ==> a[i] == b[i] || CaseVariants(a[i], b[i])
    ensures ToTableName(a) == ToTableName(b)
  {
    var ta, tb := ToTableName(a), ToTableName(b);
    ToTableNameChars(a);
    ToTableNameChars(b);
    forall i | 0 <= i < |a|
      ensures ta[i] == tb[i]
    {
      if a[i] != b[i] {
        assert CaseVariants(a[i], b[i]);
      }
    }
  }

  /** One column inside a table block. */
  datatype ColumnRow = ColumnRow(sqlType: string, name: string, pk: bool, uk: bool)

  /** `    ${t} ${c.databaseName}${pk}${uk}\n`. */
  function RowText(r: ColumnRow): string {
    "    " + r.sqlType + " " + r.name + (if r.pk then " PK" else "") + (if r.uk then " UK" else "") + "\n"
  }

  function RowsText(rows: seq<ColumnRow>): string
    decreases |rows|
  {
    if rows == [] then "" else RowsText(rows[..|rows| - 1]) + RowText(rows[|rows| - 1])
  }

  /**
   * One relation line `  ${a} ${left}--${right} ${b} : "${label}"\n` (`relLine`);
   * the markers come from the relation type through `Cardinality`.
   */
  datatype EdgeLine = EdgeLine(fromTable: string, relationType: string, toTable: string, caption: string)

  function EdgeText(e: EdgeLine): string {
    var lr := Cardinality(e.relationType);
    "  " + e.fromTable + " " + lr.0 + "--" + lr.1 + " " + e.toTable + " : \"" + e.caption + "\"\n"
  }

  /**
   * The fixed cardinality table of both generators: the left marker says
   * whether the owning side is "many", the right one whether the other side
   * is; unknown relation types fall back to one-to-one.
   */
  function Cardinality(relationType: string): (lr: (string, string))
    ensures lr.0 == "}o" <==> relationType == "many-to-one" || relationType == "many-to-many"
    ensures lr.1 == "o{" <==> relationType == "one-to-many" || relationType == "many-to-many"
    ensures lr.0 == "}o" || lr.0 == "||"
    ensures lr.1 == "o{" || lr.1 == "||"
  {
    if relationType == "many-to-one" then ("}o", "||")
    else if relationType == "one-to-many" then ("||", "o{")
    else if relationType == "one-to-one" then ("||", "||")
    else if relationType == "many-to-many" then ("}o", "o{")
    else ("||", "||")
  }

  lemma AppendAssoc(a: string, b: string, c: string)
    ensures a + b + c == a + (b + c)
  {
  }

  /** The texts `f` gives the elements of `xs`, one after the other. */
  function ConcatMap<T>(xs: seq<T>, f: T -> string): string
    decreases |xs|
  {
    if xs == [] then "" else ConcatMap(xs[..|xs| - 1], f) + f(xs[|xs| - 1])
  }

  lemma ConcatMapSnoc<T>(xs: seq<T>, x: T, f: T -> string)
    ensures ConcatMap(xs + [x], f) == ConcatMap(xs, f) + f(x)
  {
    assert (xs + [x])[..|xs|] == xs;
  }

  lemma ConcatMapOne<T>(x: T, f: T -> string)
    ensures ConcatMap([x], f) == f(x)
  {
    assert [x][..0] == [];
  }

  /** Taking one more element appends its text. */
  lemma ConcatMapTake<T>(xs: seq<T>, i: int, f: T -> string)
    requires 0 <= i < |xs|
    ensures ConcatMap(xs[..i + 1], f) == ConcatMap(xs[..i], f) + f(xs[i])
  {
    assert xs[..i + 1][..i] == xs[..i];
  }

  /** The text of a concatenation is the concatenation of the texts. */
  lemma {:induction false} ConcatMapAppend<T>(a: seq<T>, b: seq<T>, f: T -> string)
    ensures ConcatMap(a + b, f) == ConcatMap(a, f) + ConcatMap(b, f)
    decreases |b|
  {
    if b == [] {
      assert a + b == a;
    } else {
      var n := |b| - 1;
      ConcatMapAppend(a, b[..n], f);
      assert (a + b)[..|a + b| - 1] == a + b[..n];
      assert (a + b)[|a + b| - 1] == b[n];
      AppendAssoc(ConcatMap(a, f), ConcatMap(b[..n], f), f(b[n]));
    }
  }

  /** Sequences whose elements print the same texts, position by position, print the same text. */
  lemma {:induction false} ConcatMapPointwise<T, U>(xs: seq<T>, ys: seq<U>, f: T -> string, g: U -> string)
    requires |xs| == |ys|
    requires forall i :: 0 <= i < |xs| ==> f(xs[i]) == g(ys[i])
    ensures ConcatMap(xs, f) == ConcatMap(ys, g)
    decreases |xs|
  {
    if xs != [] {
      var n := |xs| - 1;
      ConcatMapPointwise(xs[..n], ys[..n], f, g);
    }
  }

  lemma InPrefix<T>(xs: seq<T>, n: int, w: T)
    requires 0 <= n <= |xs| && w in xs[..n]
    ensures w in xs
  {
    var i :| 0 <= i < n && xs[..n][i] == w;
    assert xs[i] == w;
  }

  /** An element of `xs` is its last element or an element of the prefix before it. */
  lemma InPrefixOrLast<T>(xs: seq<T>, w: T)
    requires w in xs
    ensures w == xs[|xs| - 1] || w in xs[..|xs| - 1]
  {
    var i :| 0 <= i < |xs| && xs[i] == w;
    if i < |xs| - 1 {
      assert xs[..|xs| - 1][i] == w;
    }
  }

  /** JavaScript's `list.join(sep)`. */
  function JoinWith(list: seq<string>, sep: string): string
    decreases |list|
  {
    if list == [] then ""
    else if |list| == 1 then list[0]
    else list[0] + sep + JoinWith(list[1..], sep)
  }
}
