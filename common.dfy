/** Vocabulary shared by the recipe server and its React client: document
    identifiers, the authenticated caller, the JavaScript string operations the
    routes rely on (trim, unanchored substring tests, lower-casing), and the
    array operations they use (findIndex, filter, a stable sort). */
module Common {

  datatype Option<T> = None | Some(value: T)

  /** A document identifier (a MongoDB ObjectId), abstracted as a number. */
  type Id = nat

  /** The authenticated user that the `protect` middleware attaches to a request. */
  datatype Caller = Caller(id: Id, role: string)

  const AdminRole: string := "admin"

  /** Owner-or-admin rule of recipe update, recipe delete and comment delete:
      the request is refused only when the caller is neither the owner nor an admin. */
  predicate OwnerOrAdmin(owner: Id, caller: Caller) {
    owner == caller.id || caller.role == AdminRole
  }

  /** Multiplying by a non-negative factor preserves order. */
  lemma MulMono(n: int, a: int, b: int)
    requires n >= 0 && a <= b
    ensures n * a <= n * b
  {
    assert n * b - n * a == n * (b - a);
  }

  // ---------------------------------------------------------------------------
  // String.prototype.trim

  /** The code points String.prototype.trim strips: WhiteSpace and LineTerminator. */
  predicate IsSpace(c: char) {
    c == ' ' || c == '\t' || c == '\n' || c == '\r'
    || c == '\U{000B}' || c == '\U{000C}' || c == '\U{00A0}' || c == '\U{1680}'
    || ('\U{2000}' <= c <= '\U{200A}')
    || c == '\U{2028}' || c == '\U{2029}' || c == '\U{202F}' || c == '\U{205F}'
    || c == '\U{3000}' || c == '\U{FEFF}'
  }

  predicate AllSpace(s: string) {
    forall k :: 0 <= k < |s| ==> IsSpace(s[k])
  }

  /** Index of the first character that trim keeps (|s| when there is none). */
  function TrimStartIndex(s: string): (i: nat)
    ensures i <= |s|
    ensures forall k :: 0 <= k < i ==> IsSpace(s[k])
    ensures i < |s| ==> !IsSpace(s[i])
  {
    if |s| > 0 && IsSpace(s[0]) then 1 + TrimStartIndex(s[1..]) else 0
  }

  /** One past the last character that trim keeps (0 when there is none). */
  function TrimEndIndex(s: string): (j: nat)
    ensures j <= |s|
    ensures forall k :: j <= k < |s| ==> IsSpace(s[k])
    ensures j > 0 ==> !IsSpace(s[j - 1])
  {
    if |s| > 0 && IsSpace(s[|s| - 1]) then TrimEndIndex(s[..|s| - 1]) else |s|
  }

  /** String.prototype.trim: the longest infix with no white space at either end. */
  function Trim(s: string): (t: string)
    ensures |t| <= |s|
    ensures t == "" <==> AllSpace(s)
    ensures t != "" ==> !IsSpace(t[0]) && !IsSpace(t[|t| - 1])
  {
    var i := TrimStartIndex(s);
    var j := TrimEndIndex(s);
    if i < j then s[i..j] else ""
  }

  /** `!s.trim()` in the source: the string is empty once trimmed. */
  predicate IsBlank(s: string) {
    Trim(s) == ""
  }

  /** Trimming twice is trimming once, so a trimmed value survives re-validation. */
  lemma TrimIdempotent(s: string)
    ensures Trim(Trim(s)) == Trim(s)
  {
    TrimKeepsUnpadded(Trim(s));
  }

  /** A string with no white space at either end is its own trim. */
  lemma TrimKeepsUnpadded(s: string)
    requires s != "" ==> !IsSpace(s[0]) && !IsSpace(s[|s| - 1])
    ensures Trim(s) == s
  {
    if s != "" {
      assert TrimStartIndex(s) == 0;
      assert TrimEndIndex(s) == |s|;
      assert s[0..|s|] == s;
    }
  }

  // ---------------------------------------------------------------------------
  // String lengths: JavaScript's `length` and validator.js's `isLength`

  /** A code point outside the Basic Multilingual Plane, which JavaScript stores as a
      surrogate pair. */
  predicate IsAstral(c: char) {
    c as int >= 0x1_0000
  }

  /** `s.length`, the count Mongoose's `minlength` and `maxlength` use: UTF-16 code
      units, two for an astral code point. */
  function Utf16Length(s: string): (n: nat)
    ensures |s| <= n <= 2 * |s|
  {
    if s == [] then 0 else (if IsAstral(s[0]) then 2 else 1) + Utf16Length(s[1..])
  }

  /** The text presentation and emoji presentation selectors U+FE0E and U+FE0F. */
  predicate IsPresentationSelector(c: char) {
    c == '\U{FE0E}' || c == '\U{FE0F}'
  }

  /** validator.js `isLength`: `str.length` less one per surrogate pair and one per
      presentation selector, that is, the code points that are not presentation
      selectors. */
  function ValidatorLength(s: string): (n: nat)
    ensures n <= |s|
  {
    if s == [] then 0 else (if IsPresentationSelector(s[0]) then 0 else 1) + ValidatorLength(s[1..])
  }

  /** Without astral code points the two counts of JavaScript agree with Dafny's. */
  lemma {:induction false} Utf16LengthOfBasic(s: string)
    requires forall k :: 0 <= k < |s| ==> !IsAstral(s[k])
    ensures Utf16Length(s) == |s|
  {
    if s != [] {
      Utf16LengthOfBasic(s[1..]);
    }
  }

  /** A string of astral code points takes two UTF-16 units per code point. */
  lemma {:induction false} Utf16LengthOfAstral(s: string)
    requires forall k :: 0 <= k < |s| ==> IsAstral(s[k])
    ensures Utf16Length(s) == 2 * |s|
  {
    if s != [] {
      Utf16LengthOfAstral(s[1..]);
    }
  }

  /** Without presentation selectors validator.js counts every code point. */
  lemma {:induction false} ValidatorLengthWithoutSelectors(s: string)
    requires forall k :: 0 <= k < |s| ==> !IsPresentationSelector(s[k])
    ensures ValidatorLength(s) == |s|
  {
    if s != [] {
      ValidatorLengthWithoutSelectors(s[1..]);
    }
  }

  /** validator.js counts zero exactly for a string of presentation selectors. */
  lemma {:induction false} ValidatorLengthZero(s: string)
    ensures ValidatorLength(s) == 0 <==> forall k :: 0 <= k < |s| ==> IsPresentationSelector(s[k])
  {
    if s != [] {
      ValidatorLengthZero(s[1..]);
      if ValidatorLength(s) == 0 {
        forall k | 0 <= k < |s| ensures IsPresentationSelector(s[k]) {
          if k > 0 { assert s[k] == s[1..][k - 1]; }
        }
      }
    }
  }

  // ---------------------------------------------------------------------------
  // Unanchored regular-expression alternatives: /a|b|c/.test(s)

  predicate StartsWith(s: string, p: string) {
    |p| <= |s| && s[..|p|] == p
  }

  /** `sub` occurs somewhere in `s`. */
  predicate Contains(s: string, sub: string)
    decreases |s|
  {
    StartsWith(s, sub) || (|s| > 0 && Contains(s[1..], sub))
  }

  /** An occurrence at any position makes `Contains` hold. */
  lemma {:induction false} ContainsAt(s: string, sub: string, i: nat)
    requires i + |sub| <= |s| && s[i..i + |sub|] == sub
    ensures Contains(s, sub)
    decreases i
  {
    if i == 0 {
      assert s[..|sub|] == s[0..|sub|];
    } else {
      assert s[1..][i - 1..i - 1 + |sub|] == s[i..i + |sub|];
      ContainsAt(s[1..], sub, i - 1);
    }
  }

  /** Conversely, `Contains` names a position where `sub` occurs. */
  lemma {:induction false} ContainsWitness(s: string, sub: string) returns (i: nat)
    requires Contains(s, sub)
    ensures i + |sub| <= |s| && s[i..i + |sub|] == sub
    decreases |s|
  {
    if StartsWith(s, sub) {
      i := 0;
      assert s[0..|sub|] == s[..|sub|];
    } else {
      var j := ContainsWitness(s[1..], sub);
      assert s[1..][j..j + |sub|] == s[j + 1..j + 1 + |sub|];
      i := j + 1;
    }
  }

  /** `/alt0|alt1|.../.test(s)`: some alternative occurs in `s`. */
  predicate ContainsAny(s: string, alternatives: seq<string>) {
    exists k :: 0 <= k < |alternatives| && Contains(s, alternatives[k])
  }

  // ---------------------------------------------------------------------------
  // String.prototype.toLowerCase, on the ASCII letters

  function LowerChar(c: char): char {
    if 'A' <= c <= 'Z' then (c as int + 32) as char else c
  }

  function ToLower(s: string): (t: string)
    ensures |t| == |s|
    ensures forall k :: 0 <= k < |s| ==> t[k] == LowerChar(s[k])
  {
    if s == [] then [] else [LowerChar(s[0])] + ToLower(s[1..])
  }

  // ---------------------------------------------------------------------------
  // String(n) for an integer

  function DigitChar(d: nat): (c: char)
    requires d < 10
    ensures '0' <= c <= '9'
  {
    ['0', '1', '2', '3', '4', '5', '6', '7', '8', '9'][d]
  }

  /** The decimal digits of a natural number, without leading zeros. */
  function NaturalString(n: nat): (s: string)
    ensures |s| >= 1
    ensures forall k :: 0 <= k < |s| ==> '0' <= s[k] <= '9'
    decreases n
  {
    if n < 10 then [DigitChar(n)] else NaturalString(n / 10) + [DigitChar(n % 10)]
  }

  /** `String(n)` for an integer. */
  function DecimalString(n: int): string {
    if n < 0 then "-" + NaturalString(-n) else NaturalString(n)
  }

  // ---------------------------------------------------------------------------
  // Array.prototype.findIndex, filter, and a count

  /** findIndex: the first position satisfying `p`, or None for -1. */
  function FindFirst<T>(s: seq<T>, p: T -> bool): (r: Option<nat>)
    ensures r.Some? ==> r.value < |s| && p(s[r.value])
    ensures r.Some? ==> forall k :: 0 <= k < r.value ==> !p(s[k])
    ensures r.None? <==> forall k :: 0 <= k < |s| ==> !p(s[k])
  {
    if s == [] then None
    else if p(s[0]) then Some(0)
    else match FindFirst(s[1..], p)
      case None => None
      case Some(i) => Some(i + 1)
  }

  /** Array.prototype.filter. */
  function Filter<T>(s: seq<T>, p: T -> bool): (r: seq<T>)
    ensures |r| <= |s|
    ensures forall k :: 0 <= k < |r| ==> p(r[k])
    ensures forall k :: 0 <= k < |s| && p(s[k]) ==> s[k] in r
    ensures multiset(r) <= multiset(s)
  {
    if s == [] then []
    else
      assert s == [s[0]] + s[1..];
      if p(s[0]) then [s[0]] + Filter(s[1..], p) else Filter(s[1..], p)
  }

  /** Filtering by two predicates that agree everywhere gives the same list. */
  lemma {:induction false} FilterCongruent<T>(s: seq<T>, p: T -> bool, q: T -> bool)
    requires forall x :: p(x) == q(x)
    ensures Filter(s, p) == Filter(s, q)
  {
    if s != [] {
      FilterCongruent(s[1..], p, q);
    }
  }

  /** Filtering a list whose every element passes gives back the list. */
  lemma {:induction false} FilterKeepsAll<T>(s: seq<T>, p: T -> bool)
    requires forall k :: 0 <= k < |s| ==> p(s[k])
    ensures Filter(s, p) == s
  {
    if s != [] {
      FilterKeepsAll(s[1..], p);
    }
  }

  /** Every element the filter keeps from the tail carries a key other than the head's. */
  lemma FilteredTailKeysDiffer<T, K>(s: seq<T>, p: T -> bool, key: T -> K)
    requires s != []
    requires forall i, j :: 0 <= i < j < |s| ==> key(s[i]) != key(s[j])
    ensures forall k :: 0 <= k < |Filter(s[1..], p)| ==> key(Filter(s[1..], p)[k]) != key(s[0])
  {
    var t := Filter(s[1..], p);
    forall k | 0 <= k < |t| ensures key(t[k]) != key(s[0]) {
      assert t[k] in multiset(s[1..]);
      var m :| 0 <= m < |s[1..]| && s[1..][m] == t[k];
      assert s[m + 1] == t[k];
    }
  }

  /** Putting an element with a new key in front keeps the keys distinct. */
  lemma ConsKeepsDistinctKeys<T, K>(x: T, t: seq<T>, key: T -> K)
    requires forall i, j :: 0 <= i < j < |t| ==> key(t[i]) != key(t[j])
    requires forall k :: 0 <= k < |t| ==> key(t[k]) != key(x)
    ensures forall i, j :: 0 <= i < j < |[x] + t| ==> key(([x] + t)[i]) != key(([x] + t)[j])
  {
    var r := [x] + t;
    forall i, j | 0 <= i < j < |r| ensures key(r[i]) != key(r[j]) {
      if i == 0 {
        assert r[0] == x && r[j] == t[j - 1];
      } else {
        assert r[i] == t[i - 1] && r[j] == t[j - 1];
      }
    }
  }

  /** Filtering keeps a list free of repeated keys. */
  lemma {:induction false} FilterKeepsDistinctKeys<T, K>(s: seq<T>, p: T -> bool, key: T -> K)
    requires forall i, j :: 0 <= i < j < |s| ==> key(s[i]) != key(s[j])
    ensures forall i, j :: 0 <= i < j < |Filter(s, p)| ==> key(Filter(s, p)[i]) != key(Filter(s, p)[j])
  {
    if s != [] {
      assert forall i, j :: 0 <= i < j < |s[1..]| ==> key(s[1..][i]) != key(s[1..][j]) by {
        forall i, j | 0 <= i < j < |s[1..]| ensures key(s[1..][i]) != key(s[1..][j]) {
          assert s[1..][i] == s[i + 1] && s[1..][j] == s[j + 1];
        }
      }
      FilterKeepsDistinctKeys(s[1..], p, key);
      var t := Filter(s[1..], p);
      if p(s[0]) {
        FilteredTailKeysDiffer(s, p, key);
        ConsKeepsDistinctKeys(s[0], t, key);
        assert Filter(s, p) == [s[0]] + t;
      } else {
        assert Filter(s, p) == t;
      }
    }
  }

  function Count<T>(s: seq<T>, p: T -> bool): (n: nat)
    ensures n <= |s|
  {
    if s == [] then 0 else (if p(s[0]) then 1 else 0) + Count(s[1..], p)
  }

  /** Every element is counted by exactly one of `p` and its negation. */
  lemma {:induction false} CountComplement<T>(s: seq<T>, p: T -> bool, q: T -> bool)
    requires forall x :: q(x) == !p(x)
    ensures Count(s, p) + Count(s, q) == |s|
  {
    if s != [] {
      CountComplement(s[1..], p, q);
    }
  }

  /** `filter(...).length` is the count of the elements kept. */
  lemma {:induction false} FilterLength<T>(s: seq<T>, p: T -> bool)
    ensures |Filter(s, p)| == Count(s, p)
  {
    if s != [] {
      FilterLength(s[1..], p);
    }
  }

  /** Appending nothing leaves a sequence as it was. */
  lemma AppendNothing<T>(s: seq<T>, t: seq<T>)
    requires |t| == 0
    ensures s + t == s
  {
  }

  /** Removing the element at `i`, as `filter((_, j) => j !== i)` and `splice(i, 1)` do;
      an index outside the list removes nothing. */
  function RemoveAt<T>(s: seq<T>, i: int): (r: seq<T>)
    ensures 0 <= i < |s| ==> |r| == |s| - 1
    ensures 0 <= i < |s| ==> forall k :: 0 <= k < i ==> r[k] == s[k]
    ensures 0 <= i < |s| ==> forall k :: i <= k < |r| ==> r[k] == s[k + 1]
    ensures !(0 <= i < |s|) ==> r == s
  {
    if 0 <= i < |s| then s[..i] + s[i + 1..] else s
  }

  /** Array.prototype.slice(0, end) for an integer `end`: a negative end counts from
      the back, and an end past the length stops at the length. */
  function SliceEnd(length: nat, end: int): (e: nat)
    ensures e <= length
    ensures end >= 0 ==> e == if end <= length then end else length
    ensures end < 0 ==> e == if length + end >= 0 then length + end else 0
  {
    if end < 0 then (if length + end >= 0 then length + end else 0)
    else if end <= length then end else length
  }

  // ---------------------------------------------------------------------------
  // A stable sort by a comparator (Array.prototype.sort since ES2019, and a
  // MongoDB `.sort()` with its ties broken in natural order)

  /** `le(a, b)`: `a` may stand before `b` (the comparator returns <= 0). */
  ghost predicate TotalPreorder<T(!new)>(le: (T, T) -> bool) {
    && (forall a, b :: le(a, b) || le(b, a))
    && (forall a, b, c :: le(a, b) && le(b, c) ==> le(a, c))
  }

  ghost predicate SortedBy<T>(s: seq<T>, le: (T, T) -> bool) {
    forall i, j :: 0 <= i < j < |s| ==> le(s[i], s[j])
  }

  /** Inserts `x` before the first element it may precede. */
  function InsertBy<T>(x: T, s: seq<T>, le: (T, T) -> bool): (r: seq<T>)
    ensures multiset(r) == multiset(s) + multiset{x}
    ensures |r| == |s| + 1
  {
    if s == [] || le(x, s[0]) then [x] + s
    else
      assert s == [s[0]] + s[1..];
      [s[0]] + InsertBy(x, s[1..], le)
  }

  /** Insertion sort; an element is placed before the equal elements that follow it,
      so equal elements keep their order. */
  function SortBy<T>(s: seq<T>, le: (T, T) -> bool): (r: seq<T>)
    ensures multiset(r) == multiset(s)
    ensures |r| == |s|
  {
    if s == [] then []
    else
      assert s == [s[0]] + s[1..];
      InsertBy(s[0], SortBy(s[1..], le), le)
  }

  /** The first `n` entries of a sorted list rank before every entry left out: each
      element the list holds beyond the prefix (counted with multiplicity) may
      stand after each of them. */
  lemma SortedPrefixIsTop<T>(s: seq<T>, n: nat, le: (T, T) -> bool)
    requires SortedBy(s, le) && n <= |s|
    ensures forall y, i :: y in multiset(s) - multiset(s[..n]) && 0 <= i < n ==> le(s[i], y)
  {
    assert s == s[..n] + s[n..];
    assert multiset(s) - multiset(s[..n]) == multiset(s[n..]);
    forall y, i | y in multiset(s) - multiset(s[..n]) && 0 <= i < n ensures le(s[i], y) {
      assert y in s[n..];
      var j :| 0 <= j < |s[n..]| && s[n..][j] == y;
      assert s[n + j] == y;
    }
  }

  /** The first `n` entries of a sort: `n` of the inputs, in order, each ranked before
      every input left out. */
  lemma SortedTop<T(!new)>(s: seq<T>, le: (T, T) -> bool, n: nat)
    requires TotalPreorder(le) && n <= |s|
    ensures |SortBy(s, le)| == |s|
    ensures multiset(SortBy(s, le)[..n]) <= multiset(s)
    ensures SortedBy(SortBy(s, le)[..n], le)
    ensures forall y, i :: y in multiset(s) - multiset(SortBy(s, le)[..n]) && 0 <= i < n ==> le(SortBy(s, le)[i], y)
  {
    var sorted := SortBy(s, le);
    assert |sorted| == |multiset(sorted)| == |s|;
    SortBySorted(s, le);
    assert sorted == sorted[..n] + sorted[n..];
    assert multiset(sorted) == multiset(sorted[..n]) + multiset(sorted[n..]);
    SortedPrefixIsTop(sorted, n, le);
  }

  lemma {:induction false} InsertBySorted<T(!new)>(x: T, s: seq<T>, le: (T, T) -> bool)
    requires TotalPreorder(le)
    requires SortedBy(s, le)
    ensures SortedBy(InsertBy(x, s, le), le)
  {
    if s == [] || le(x, s[0]) {
      var r := [x] + s;
      forall i, j | 0 <= i < j < |r| ensures le(r[i], r[j]) {
        if i == 0 {
          if j > 1 { assert le(s[0], s[j - 1]); }
        }
      }
    } else {
      var t := InsertBy(x, s[1..], le);
      InsertBySorted(x, s[1..], le);
      var r := [s[0]] + t;
      assert le(s[0], x);
      forall j | 0 <= j < |t| ensures le(s[0], t[j]) {
        assert t[j] in multiset(t);
        assert t[j] == x || t[j] in multiset(s[1..]);
        if t[j] != x {
          assert t[j] in s[1..];
          var k :| 0 <= k < |s[1..]| && s[1..][k] == t[j];
          assert le(s[0], s[k + 1]);
        }
      }
      forall i, j | 0 <= i < j < |r| ensures le(r[i], r[j]) {
        if i == 0 { assert le(s[0], t[j - 1]); } else { assert le(t[i - 1], t[j - 1]); }
      }
    }
  }

  /** SortBy orders its input by any total preorder. */
  lemma {:induction false} SortBySorted<T(!new)>(s: seq<T>, le: (T, T) -> bool)
    requires TotalPreorder(le)
    ensures SortedBy(SortBy(s, le), le)
  {
    if s != [] {
      SortBySorted(s[1..], le);
      InsertBySorted(s[0], SortBy(s[1..], le), le);
    }
  }

  // ---------------------------------------------------------------------------
  // Lists that agree once projected

  /** `s` and `t` agree element by element once viewed through `f`. */
  ghost predicate SameUnder<T, U>(s: seq<T>, t: seq<T>, f: T -> U) {
    |s| == |t| && forall k :: 0 <= k < |s| ==> f(s[k]) == f(t[k])
  }

  /** Counting with predicates that agree position by position gives the same count. */
  lemma {:induction false} CountPointwise<T>(s: seq<T>, t: seq<T>, p: T -> bool, q: T -> bool)
    requires |s| == |t| && forall k :: 0 <= k < |s| ==> p(s[k]) == q(t[k])
    ensures Count(s, p) == Count(t, q)
  {
    if s != [] {
      assert forall k :: 0 <= k < |s[1..]| ==> s[1..][k] == s[k + 1] && t[1..][k] == t[k + 1];
      CountPointwise(s[1..], t[1..], p, q);
    }
  }

  /** Inserting by an order that sees only the projection keeps two lists that agree
      under it in agreement. */
  lemma {:induction false} InsertBySameUnder<T, U>(x: T, y: T, s: seq<T>, t: seq<T>, le: (T, T) -> bool,
                                                   f: T -> U, key: (U, U) -> bool)
    requires f(x) == f(y) && SameUnder(s, t, f)
    requires forall a, b :: le(a, b) == key(f(a), f(b))
    ensures SameUnder(InsertBy(x, s, le), InsertBy(y, t, le), f)
  {
    if s != [] {
      assert le(x, s[0]) == le(y, t[0]) by {
        assert le(x, s[0]) == key(f(x), f(s[0])) && le(y, t[0]) == key(f(y), f(t[0]));
      }
      if le(x, s[0]) {
        var r1, r2 := [x] + s, [y] + t;
        forall k | 0 <= k < |r1| ensures f(r1[k]) == f(r2[k]) {
          if k > 0 { assert r1[k] == s[k - 1] && r2[k] == t[k - 1]; }
        }
      } else {
        assert SameUnder(s[1..], t[1..], f) by {
          forall k | 0 <= k < |s[1..]| ensures f(s[1..][k]) == f(t[1..][k]) {
            assert s[1..][k] == s[k + 1] && t[1..][k] == t[k + 1];
          }
        }
        InsertBySameUnder(x, y, s[1..], t[1..], le, f, key);
        var i1, i2 := InsertBy(x, s[1..], le), InsertBy(y, t[1..], le);
        var r1, r2 := [s[0]] + i1, [t[0]] + i2;
        forall k | 0 <= k < |r1| ensures f(r1[k]) == f(r2[k]) {
          if k > 0 { assert r1[k] == i1[k - 1] && r2[k] == i2[k - 1]; }
        }
      }
    }
  }

  /** Sorting by an order that sees only the projection keeps two lists that agree
      under it in agreement. */
  lemma {:induction false} SortBySameUnder<T, U>(s: seq<T>, t: seq<T>, le: (T, T) -> bool,
                                                 f: T -> U, key: (U, U) -> bool)
    requires SameUnder(s, t, f)
    requires forall a, b :: le(a, b) == key(f(a), f(b))
    ensures SameUnder(SortBy(s, le), SortBy(t, le), f)
  {
    if s != [] {
      assert SameUnder(s[1..], t[1..], f) by {
        forall k | 0 <= k < |s[1..]| ensures f(s[1..][k]) == f(t[1..][k]) {
          assert s[1..][k] == s[k + 1] && t[1..][k] == t[k + 1];
        }
      }
      SortBySameUnder(s[1..], t[1..], le, f, key);
      InsertBySameUnder(s[0], t[0], SortBy(s[1..], le), SortBy(t[1..], le), le, f, key);
    }
  }
}
