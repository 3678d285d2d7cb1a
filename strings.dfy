/** The few Python `str` operations the scraper and the dashboard rely on,
    restricted to ASCII: `strip`, `lower`, `title`, `startswith`, the `in`
    substring test, `replace` of one character, `join`, `split` and `str(int)`. */
module Strings {

  datatype Option<+T> = None | Some(value: T) {
    function GetOr(default: T): T {
      match this
      case Some(v) => v
      case None => default
    }
  }

  /** Python's `str.isspace` on the ASCII range: tab to carriage return,
      the four information separators and the blank. */
  predicate IsSpace(c: char) {
    (9 <= c as int <= 13) || (28 <= c as int <= 32)
  }

  /** Every character is white space. */
  predicate AllSpace(w: string) {
    forall k :: 0 <= k < |w| ==> IsSpace(w[k])
  }

  /** The first n elements are the head followed by n - 1 of the tail. */
  lemma TakeAfterHead<T>(s: seq<T>, n: nat)
    requires 1 <= n <= |s|
    ensures s[..n] == [s[0]] + s[1..][..n - 1]
  {
  }

  /** The last n elements are n - 1 of the front followed by the last. */
  lemma DropBeforeLast<T>(s: seq<T>, n: nat)
    requires 1 <= n <= |s|
    ensures s[|s| - n..] == s[..|s| - 1][|s| - n..] + [s[|s| - 1]]
  {
  }

  /** How many white-space characters start the text. */
  function LeadingSpaces(s: string): (n: nat)
    ensures n <= |s| && AllSpace(s[..n]) && (n < |s| ==> !IsSpace(s[n]))
  {
    if s != [] && IsSpace(s[0]) then
      var n := 1 + LeadingSpaces(s[1..]);
      TakeAfterHead(s, n);
      n
    else 0
  }

  /** How many white-space characters end the text. */
  function TrailingSpaces(s: string): (n: nat)
    ensures n <= |s| && AllSpace(s[|s| - n..]) && (n < |s| ==> !IsSpace(s[|s| - n - 1]))
  {
    if s != [] && IsSpace(s[|s| - 1]) then
      var n := 1 + TrailingSpaces(s[..|s| - 1]);
      DropBeforeLast(s, n);
      n
    else 0
  }

  /** `str.lstrip()`. */
  function TrimLeft(s: string): string {
    s[LeadingSpaces(s)..]
  }

  /** `str.rstrip()`. */
  function TrimRight(s: string): string {
    s[..|s| - TrailingSpaces(s)]
  }

  /** `lstrip` drops exactly the white space that starts the text: it keeps
      a suffix that does not start with white space, and all it drops is
      white space. */
  lemma TrimLeftDropsSpace(s: string)
    ensures var r := TrimLeft(s);
      && |r| <= |s| && r == s[|s| - |r|..]
      && (r != [] ==> !IsSpace(r[0]))
      && AllSpace(s[..|s| - |r|])
  {
  }

  /** `rstrip` drops exactly the white space that ends the text: it keeps a
      prefix that does not end with white space, and all it drops is white
      space. */
  lemma TrimRightDropsSpace(s: string)
    ensures var r := TrimRight(s);
      && |r| <= |s| && r == s[..|r|]
      && (r != [] ==> !IsSpace(r[|r| - 1]))
      && AllSpace(s[|r|..])
  {
  }

  /** `str.strip()` with no argument. */
  function Strip(s: string): string {
    TrimRight(TrimLeft(s))
  }

  predicate IsUpper(c: char) { 'A' <= c <= 'Z' }
  predicate IsLower(c: char) { 'a' <= c <= 'z' }
  predicate IsLetter(c: char) { IsUpper(c) || IsLower(c) }

  function LowerChar(c: char): char {
    if IsUpper(c) then (c as int + 32) as char else c
  }

  function UpperChar(c: char): char {
    if IsLower(c) then (c as int - 32) as char else c
  }

  /** `str.lower()`. */
  function Lower(s: string): (r: string)
    ensures |r| == |s|
  {
    seq(|s|, i requires 0 <= i < |s| => LowerChar(s[i]))
  }

  /** `str.title()`: a letter that starts a run of letters is upper-cased,
      every other letter is lower-cased, everything else is kept. */
  function Title(s: string): (r: string)
    ensures |r| == |s|
  {
    seq(|s|, i requires 0 <= i < |s| =>
      if i == 0 || !IsLetter(s[i - 1]) then UpperChar(s[i]) else LowerChar(s[i]))
  }

  /** A non-empty run of lower-case letters. */
  predicate IsLowerWord(w: string) {
    w != [] && forall i :: 0 <= i < |w| ==> IsLower(w[i])
  }

  /** A word of lower-case letters is titled by upper-casing its first
      letter. */
  lemma TitleLowerWord(w: string)
    requires IsLowerWord(w)
    ensures Title(w) == [UpperChar(w[0])] + w[1..]
  {
    var t := [UpperChar(w[0])] + w[1..];
    forall i | 0 < i < |w| ensures Title(w)[i] == t[i] {
      assert IsLetter(w[i - 1]);
    }
  }

  /** `title` works word by word: a blank starts a new word. */
  lemma TitleAcrossBlank(a: string, b: string)
    ensures Title(a + " " + b) == Title(a) + " " + Title(b)
  {
    var s, t := a + " " + b, Title(a) + " " + Title(b);
    TitleLeftOfBlank(a, b);
    TitleRightOfBlank(a, b);
    forall i | 0 <= i < |s| ensures Title(s)[i] == t[i] {
      if i < |a| {
        assert t[i] == Title(a)[i];
      } else if i == |a| {
        assert s[i] == ' ' && t[i] == ' ';
      } else {
        assert t[i] == Title(b)[i - |a| - 1];
      }
    }
  }

  /** Before the blank, titling the joined text titles the first part. */
  lemma TitleLeftOfBlank(a: string, b: string)
    ensures forall i :: 0 <= i < |a| ==> Title(a + " " + b)[i] == Title(a)[i]
  {
    var s := a + " " + b;
    forall i | 0 <= i < |a| ensures Title(s)[i] == Title(a)[i] {
      assert s[i] == a[i];
      if i > 0 {
        assert s[i - 1] == a[i - 1];
      }
    }
  }

  /** After the blank, titling the joined text titles the second part. */
  lemma TitleRightOfBlank(a: string, b: string)
    ensures forall j :: 0 <= j < |b| ==> Title(a + " " + b)[|a| + 1 + j] == Title(b)[j]
  {
    var s := a + " " + b;
    forall j | 0 <= j < |b| ensures Title(s)[|a| + 1 + j] == Title(b)[j] {
      var i := |a| + 1 + j;
      assert s[i] == b[j];
      if j > 0 {
        assert s[i - 1] == b[j - 1];
      } else {
        assert s[i - 1] == ' ';
      }
    }
  }

  function ReplaceChar(s: string, a: char, b: char): (r: string)
    ensures |r| == |s|
  {
    seq(|s|, i requires 0 <= i < |s| => if s[i] == a then b else s[i])
  }

  /** `replace` works piece by piece across an occurrence of the replaced
      character. */
  lemma ReplaceAcross(a: string, b: string, c: char, d: char)
    ensures ReplaceChar(a + [c] + b, c, d) == ReplaceChar(a, c, d) + [d] + ReplaceChar(b, c, d)
  {
    var s, r := a + [c] + b, ReplaceChar(a, c, d) + [d] + ReplaceChar(b, c, d);
    forall i | 0 <= i < |s| ensures ReplaceChar(s, c, d)[i] == r[i] {
      if i < |a| {
        assert s[i] == a[i];
      } else if i > |a| {
        assert s[i] == b[i - |a| - 1];
      }
    }
  }


  predicate StartsWith(s: string, p: string) {
    |p| <= |s| && s[..|p|] == p
  }

  /** `sub in s`: `sub` occurs in `s` at some position. */
  predicate Contains(s: string, sub: string)
    decreases |s|
  {
    |sub| <= |s| && (s[..|sub|] == sub || Contains(s[1..], sub))
  }

  /** `sep.join(parts)`. */
  function Join(sep: string, parts: seq<string>): string
    decreases |parts|
  {
    if parts == [] then ""
    else if |parts| == 1 then parts[0]
    else Join(sep, parts[..|parts| - 1]) + sep + parts[|parts| - 1]
  }

  /** Index of the first occurrence of `c` in `s`. */
  function IndexOf(s: string, c: char): (i: nat)
    requires c in s
    ensures i < |s| && s[i] == c && c !in s[..i]
  {
    if s[0] == c then 0 else 1 + IndexOf(s[1..], c)
  }

  /** `s.split(c)` for a one-character separator: never empty, and no piece
      contains the separator. */
  function Split(s: string, c: char): (parts: seq<string>)
    ensures |parts| >= 1
    ensures forall k :: 0 <= k < |parts| ==> c !in parts[k]
    decreases |s|
  {
    if c !in s then [s]
    else
      var i := IndexOf(s, c);
      [s[..i]] + Split(s[i + 1..], c)
  }

  /** Joining the pieces of a split with the separator gives back the string. */
  lemma {:induction false} SplitJoin(s: string, c: char)
    ensures Join([c], Split(s, c)) == s
    decreases |s|
  {
    if c in s {
      var i := IndexOf(s, c);
      var rest := Split(s[i + 1..], c);
      assert Split(s, c) == [s[..i]] + rest;
      SplitJoin(s[i + 1..], c);
      JoinAround(s, c, i, rest);
    }
  }

  /** Joining the piece before position `i` with pieces that join back to
      what follows it gives `s` when `s[i]` is the separator. */
  lemma JoinAround(s: string, c: char, i: nat, rest: seq<string>)
    requires i < |s| && s[i] == c && rest != [] && Join([c], rest) == s[i + 1..]
    ensures Join([c], [s[..i]] + rest) == s
  {
    JoinCons([c], s[..i], rest);
    assert s == s[..i] + [c] + s[i + 1..];
  }

  lemma {:induction false} JoinCons(sep: string, x: string, rest: seq<string>)
    requires rest != []
    ensures Join(sep, [x] + rest) == x + sep + Join(sep, rest)
    decreases |rest|
  {
    if |rest| == 1 {
      assert [x] + rest == [x, rest[0]];
    } else {
      var init, last := rest[..|rest| - 1], rest[|rest| - 1];
      JoinCons(sep, x, init);
      var xs := [x] + rest;
      assert xs[..|xs| - 1] == [x] + init && xs[|xs| - 1] == last;
      assert Join(sep, xs) == Join(sep, [x] + init) + sep + last;
      assert Join(sep, rest) == Join(sep, init) + sep + last;
    }
  }

  /** Splitting a join of pieces that do not contain the separator gives
      the pieces back. */
  lemma {:induction false} JoinSplit(parts: seq<string>, c: char)
    requires parts != []
    requires forall k :: 0 <= k < |parts| ==> c !in parts[k]
    ensures Split(Join([c], parts), c) == parts
    decreases |parts|
  {
    if |parts| > 1 {
      var x, rest := parts[0], parts[1..];
      assert parts == [x] + rest;
      JoinCons([c], x, rest);
      var s := Join([c], parts);
      assert s == x + [c] + Join([c], rest);
      assert s[|x|] == c;
      var i := IndexOf(s, c);
      assert s[..i] == x;
      assert s[i + 1..] == Join([c], rest);
      JoinSplit(rest, c);
    }
  }

  /** The value of a string of decimal digits, read left to right. */
  function DigitsValue(r: string): nat
    requires forall k :: 0 <= k < |r| ==> '0' <= r[k] <= '9'
  {
    if r == [] then 0 else DigitsValue(r[..|r| - 1]) * 10 + (r[|r| - 1] as int - '0' as int)
  }

  /** `str(n)` for a natural number. */
  function NatToString(n: nat): (r: string)
    ensures |r| >= 1
    ensures forall k :: 0 <= k < |r| ==> '0' <= r[k] <= '9'
  {
    var d := ['0' + (n % 10) as char];
    if n < 10 then d else NatToString(n / 10) + d
  }

  /** `str(n)` is the decimal numeral of n: reading its digits back gives
      n, and it has no leading zero unless it is "0". */
  lemma {:induction false} NatToStringValue(n: nat)
    ensures DigitsValue(NatToString(n)) == n
    ensures NatToString(n)[0] == '0' ==> n == 0
    decreases n
  {
    if n >= 10 {
      var r := NatToString(n);
      NatToStringValue(n / 10);
      assert r[..|r| - 1] == NatToString(n / 10);
      assert r[0] == NatToString(n / 10)[0];
    }
  }

  /** A non-empty sequence is its front followed by its last element. */
  lemma FrontLast<T>(s: seq<T>)
    requires s != []
    ensures s == s[..|s| - 1] + [s[|s| - 1]]
  {
  }

  /** A text with no blank at either end is its own `strip()`. */
  lemma StripStripped(s: string)
    requires s != [] && !IsSpace(s[0]) && !IsSpace(s[|s| - 1])
    ensures Strip(s) == s
  {
  }

  /** What `strip()` keeps has no white space at either end. */
  lemma StripNoBlankEnds(s: string)
    ensures var r := Strip(s); r != [] ==> !IsSpace(r[0]) && !IsSpace(r[|r| - 1])
  {
    var t := TrimLeft(s);
    var r := TrimRight(t);
    if r != [] {
      assert r[0] == t[0];
    }
  }

  /** `strip()` removes exactly the white space at the two ends: what it
      keeps is the slice of the input between the first and the last
      character that is not white space, and what lies before and after
      that slice is all white space. */
  lemma StripEnds(s: string)
    ensures var r := Strip(s); var i := LeadingSpaces(s);
      && i + |r| <= |s| && r == s[i..i + |r|]
      && AllSpace(s[..i]) && AllSpace(s[i + |r|..])
      && (r != [] ==> !IsSpace(r[0]) && !IsSpace(r[|r| - 1]))
  {
    StripSlice(s);
    StripDropsRight(s);
    StripNoBlankEnds(s);
  }

  /** What `strip()` keeps is the slice of the input after its leading
      white space. */
  lemma StripSlice(s: string)
    ensures var r := Strip(s); var i := LeadingSpaces(s); i + |r| <= |s| && r == s[i..i + |r|]
  {
    var i := LeadingSpaces(s);
    var t := TrimLeft(s);
    var r := Strip(s);
    assert t == s[i..];
    assert r == t[..|t| - TrailingSpaces(t)];
    PrefixOfSuffix(s, i, t, r);
  }

  /** A prefix r of the suffix t of s starting at i is the slice of s from i. */
  lemma PrefixOfSuffix<T>(s: seq<T>, i: nat, t: seq<T>, r: seq<T>)
    requires i <= |s| && t == s[i..] && |r| <= |t| && r == t[..|r|]
    ensures i + |r| <= |s| && r == s[i..i + |r|]
  {
  }

  /** What follows the slice `strip()` keeps is white space only. */
  lemma StripDropsRight(s: string)
    ensures var r := Strip(s); var i := LeadingSpaces(s); i + |r| <= |s| && AllSpace(s[i + |r|..])
  {
    var t := TrimLeft(s);
    SliceOfSuffix(s, LeadingSpaces(s), t, |t| - TrailingSpaces(t));
  }

  /** The first n elements of the suffix t of s starting at i are the slice
      of s from i, and what follows them in t is what follows that slice. */
  lemma SliceOfSuffix<T>(s: seq<T>, i: nat, t: seq<T>, n: nat)
    requires i <= |s| && t == s[i..] && n <= |t|
    ensures i + n <= |s| && t[..n] == s[i..i + n] && t[n..] == s[i + n..]
  {
  }

  /** `strip()` brings in no character the input does not have. */
  lemma StripFromInput(s: string, c: char)
    requires c in Strip(s)
    ensures c in s
  {
    var t := TrimLeft(s);
    var j :| 0 <= j < |TrimRight(t)| && TrimRight(t)[j] == c;
    assert t[j] == c;
  }

  // ---------------------------------------------------------------------
  // `sorted` on strings

  /** Python's `<=` on strings: by code point, a proper prefix first. */
  predicate LessEq(a: string, b: string)
    decreases |a|
  {
    a == [] || (b != [] && (a[0] < b[0] || (a[0] == b[0] && LessEq(a[1..], b[1..]))))
  }

  lemma {:induction false} LessEqTotal(a: string, b: string)
    ensures LessEq(a, b) || LessEq(b, a)
    decreases |a|
  {
    if a != [] && b != [] && a[0] == b[0] {
      LessEqTotal(a[1..], b[1..]);
    }
  }

  lemma {:induction false} LessEqTransitive(a: string, b: string, c: string)
    requires LessEq(a, b) && LessEq(b, c)
    ensures LessEq(a, c)
    decreases |a|
  {
    if a != [] && a[0] == b[0] && b[0] == c[0] {
      LessEqTransitive(a[1..], b[1..], c[1..]);
    }
  }

  lemma {:induction false} LessEqAntisymmetric(a: string, b: string)
    requires LessEq(a, b) && LessEq(b, a)
    ensures a == b
    decreases |a|
  {
    if a != [] {
      LessEqAntisymmetric(a[1..], b[1..]);
      assert a == [a[0]] + a[1..] && b == [b[0]] + b[1..];
    }
  }

  /** A shared prefix does not change the order. */
  lemma {:induction false} LessEqPrefix(p: string, a: string, b: string)
    requires LessEq(a, b)
    ensures LessEq(p + a, p + b)
    decreases |p|
  {
    if p != [] {
      LessEqPrefix(p[1..], a, b);
      assert (p + a)[0] == (p + b)[0];
      assert (p + a)[1..] == p[1..] + a;
      assert (p + b)[1..] == p[1..] + b;
    } else {
      assert p + a == a && p + b == b;
    }
  }

  predicate IsSorted(s: seq<string>) {
    forall i, j :: 0 <= i < j < |s| ==> LessEq(s[i], s[j])
  }

  /** Sortedness follows from the order of neighbours. */
  lemma {:induction false} SortedByNeighbours(s: seq<string>)
    requires forall i :: 0 <= i < |s| - 1 ==> LessEq(s[i], s[i + 1])
    ensures IsSorted(s)
    decreases |s|
  {
    if |s| > 1 {
      var tail := s[1..];
      assert forall i :: 0 <= i < |tail| ==> tail[i] == s[i + 1];
      SortedByNeighbours(tail);
      forall i, j | 0 <= i < j < |s| ensures LessEq(s[i], s[j]) {
        if 0 < i {
          assert s[i] == tail[i - 1] && s[j] == tail[j - 1];
        } else if 1 < j {
          assert s[1] == tail[0] && s[j] == tail[j - 1];
          LessEqTransitive(s[0], s[1], s[j]);
        }
      }
    }
  }

  /** `x` inserted into the sorted `s` at its place. */
  function Insert(x: string, s: seq<string>): (r: seq<string>)
    requires IsSorted(s)
    ensures IsSorted(r) && multiset(r) == multiset(s) + multiset{x}
    decreases |s|
  {
    if s == [] then [x]
    else if LessEq(x, s[0]) then
      BelowHead(x, s);
      SortedCons(x, s);
      [x] + s
    else
      SortedTail(s);
      var rest := Insert(x, s[1..]);
      LessEqTotal(x, s[0]);
      HeadBelowInserted(s, x, rest);
      SortedCons(s[0], rest);
      assert s == [s[0]] + s[1..];
      [s[0]] + rest
  }

  /** A string below the head of a sorted sequence is below all of it. */
  lemma BelowHead(x: string, s: seq<string>)
    requires IsSorted(s) && s != [] && LessEq(x, s[0])
    ensures forall j :: 0 <= j < |s| ==> LessEq(x, s[j])
  {
    forall j | 0 < j < |s| ensures LessEq(x, s[j]) {
      LessEqTransitive(x, s[0], s[j]);
    }
  }

  /** A string below every element of a sorted sequence can go in front. */
  lemma SortedCons(y: string, s: seq<string>)
    requires IsSorted(s) && forall j :: 0 <= j < |s| ==> LessEq(y, s[j])
    ensures IsSorted([y] + s)
  {
    var r := [y] + s;
    forall i, j | 0 <= i < j < |r| ensures LessEq(r[i], r[j]) {
      assert r[j] == s[j - 1];
      if i > 0 {
        assert r[i] == s[i - 1];
      }
    }
  }

  /** The head of a sorted sequence is below its tail with `x` added, when
      it is below `x`. */
  lemma HeadBelowInserted(s: seq<string>, x: string, rest: seq<string>)
    requires IsSorted(s) && s != [] && LessEq(s[0], x)
    requires multiset(rest) == multiset(s[1..]) + multiset{x}
    ensures forall j :: 0 <= j < |rest| ==> LessEq(s[0], rest[j])
  {
    forall j | 0 <= j < |rest| ensures LessEq(s[0], rest[j]) {
      assert rest[j] in multiset(rest);
      assert rest[j] in multiset(s[1..]) || rest[j] == x;
      if rest[j] != x {
        var k :| 0 <= k < |s[1..]| && s[1..][k] == rest[j];
        assert s[k + 1] == rest[j];
      }
    }
  }

  /** `sorted(keys)`: insertion sort into ascending order. */
  function SortStrings(s: seq<string>): (r: seq<string>)
    ensures IsSorted(r) && multiset(r) == multiset(s) && |r| == |s|
    decreases |s|
  {
    if s == [] then []
    else
      assert s == [s[0]] + s[1..];
      Insert(s[0], SortStrings(s[1..]))
  }

  lemma SortedTail(a: seq<string>)
    requires IsSorted(a) && a != []
    ensures IsSorted(a[1..])
  {
    forall i, j | 0 <= i < j < |a| - 1 ensures LessEq(a[1..][i], a[1..][j]) {
      assert a[1..][i] == a[i + 1] && a[1..][j] == a[j + 1];
    }
  }

  lemma TailMultiset(a: seq<string>)
    requires a != []
    ensures multiset(a[1..]) == multiset(a) - multiset{a[0]}
  {
    assert a == [a[0]] + a[1..];
  }

  /** There is one ascending arrangement of a collection of strings: two
      sorted sequences with the same elements are equal. */
  lemma {:induction false} SortedUnique(a: seq<string>, b: seq<string>)
    requires IsSorted(a) && IsSorted(b) && multiset(a) == multiset(b)
    ensures a == b
    decreases |a|
  {
    if a != [] {
      SortedSameHead(a, b);
      TailMultiset(a);
      TailMultiset(b);
      SortedTail(a);
      SortedTail(b);
      SortedUnique(a[1..], b[1..]);
      assert a == [a[0]] + a[1..] && b == [b[0]] + b[1..];
    }
  }

  /** Two sorted arrangements of the same strings start alike. */
  lemma SortedSameHead(a: seq<string>, b: seq<string>)
    requires IsSorted(a) && IsSorted(b) && multiset(a) == multiset(b) && a != []
    ensures |b| == |a| && a[0] == b[0]
  {
    assert |b| == |a| by {
      assert |multiset(a)| == |a| && |multiset(b)| == |b|;
    }
    assert a[0] in multiset(b) && b[0] in multiset(a);
    var i :| 0 <= i < |b| && b[i] == a[0];
    var j :| 0 <= j < |a| && a[j] == b[0];
    if a[0] != b[0] {
      assert LessEq(b[0], b[i]) && LessEq(a[0], a[j]);
      LessEqAntisymmetric(a[0], b[0]);
    }
  }

  /** No string occurs twice. */
  predicate Distinct(s: seq<string>) {
    forall i, j :: 0 <= i < j < |s| ==> s[i] != s[j]
  }

  lemma {:induction false} DistinctCount(s: seq<string>, x: string)
    requires Distinct(s)
    ensures multiset(s)[x] == if x in s then 1 else 0
    decreases |s|
  {
    if s != [] {
      var init := s[..|s| - 1];
      assert s == init + [s[|s| - 1]];
      assert Distinct(init) by {
        forall i, j | 0 <= i < j < |init| ensures init[i] != init[j] {
          assert init[i] == s[i] && init[j] == s[j];
        }
      }
      DistinctCount(init, x);
      if x == s[|s| - 1] {
        forall k | 0 <= k < |init| ensures init[k] != x {
          assert init[k] == s[k];
        }
      }
    }
  }

  lemma CountTwo(s: seq<string>, i: nat, j: nat)
    requires i < j < |s| && s[i] == s[j]
    ensures multiset(s)[s[i]] >= 2
  {
    assert s == s[..j] + s[j..];
    assert s[i] == s[..j][i];
    assert s[j] == s[j..][0];
  }

  /** A rearrangement of a sequence without repetitions has none either. */
  lemma DistinctPerm(a: seq<string>, b: seq<string>)
    requires Distinct(a) && multiset(a) == multiset(b)
    ensures Distinct(b)
  {
    forall i, j | 0 <= i < j < |b| ensures b[i] != b[j] {
      if b[i] == b[j] {
        CountTwo(b, i, j);
        DistinctCount(a, b[i]);
        assert false;
      }
    }
  }

  /** Two sequences without repetitions and with the same elements hold
      the same collection. */
  lemma SameElements(a: seq<string>, b: seq<string>)
    requires Distinct(a) && Distinct(b)
    requires forall x :: x in a <==> x in b
    ensures multiset(a) == multiset(b)
  {
    forall x ensures multiset(a)[x] == multiset(b)[x] {
      DistinctCount(a, x);
      DistinctCount(b, x);
    }
  }

  /** Sorting keeps the elements, so it keeps a sequence free of repetitions. */
  lemma SortStringsDistinct(s: seq<string>)
    requires Distinct(s)
    ensures Distinct(SortStrings(s)) && forall x :: x in SortStrings(s) <==> x in s
  {
    var sorted := SortStrings(s);
    DistinctPerm(s, sorted);
    forall x ensures x in sorted <==> x in s {
      assert x in sorted <==> x in multiset(sorted);
      assert x in s <==> x in multiset(s);
    }
  }
}
