/** Small building blocks shared by the server and the client model: an
    optional value, the JavaScript string operations the code relies on, and
    order-keeping sequence operations (filter, de-duplication, counting). */
module Common {

  datatype Option<T> = None | Some(value: T)

  /** A JSON property that may be absent, explicitly null, or a string. */
  datatype JsonField = Missing | Null | Str(text: string)
  {
    /** JavaScript truthiness: only a non-empty string is truthy. */
    predicate Truthy() {
      Str? && text != ""
    }
  }

  /** `value || fallback` on a string property. */
  function Or(value: string, fallback: string): (r: string)
    ensures value != "" ==> r == value
    ensures value == "" ==> r == fallback
  {
    if value != "" then value else fallback
  }

  /** `value || null`: an empty string is stored as null. */
  function OrNull(value: string): (r: JsonField)
    ensures r.Truthy() <==> value != ""
    ensures r.Truthy() ==> r.text == value
    ensures !r.Truthy() ==> r == Null
  {
    if value != "" then Str(value) else Null
  }

  /** `field || ""` read back from a stored property. */
  function OrEmpty(field: JsonField): (r: string)
    ensures field.Truthy() ==> r == field.text
    ensures !field.Truthy() ==> r == ""
  {
    if field.Truthy() then field.text else ""
  }
}

/** The JavaScript string operations used by the code, over `seq<char>`. */
module Text {

  /** The characters String.prototype.trim removes and `\s` matches:
      ECMAScript WhiteSpace and LineTerminator. */
  predicate IsSpace(c: char) {
    c == ' ' || c == '\t' || c == '\n' || c == '\r' || c == '\U{000B}' || c == '\U{000C}'
    || c == '\U{00A0}' || c == '\U{1680}' || ('\U{2000}' <= c <= '\U{200A}')
    || c == '\U{2028}' || c == '\U{2029}' || c == '\U{202F}' || c == '\U{205F}'
    || c == '\U{3000}' || c == '\U{FEFF}'
  }

  /** The number of white-space characters `s` starts with. */
  function LeadingSpace(s: string): (n: nat)
    ensures n <= |s|
  {
    if s != "" && IsSpace(s[0]) then 1 + LeadingSpace(s[1..]) else 0
  }

  /** The number of white-space characters `s` ends with. */
  function TrailingSpace(s: string): (n: nat)
    ensures n <= |s|
  {
    if s != "" && IsSpace(s[|s| - 1]) then 1 + TrailingSpace(s[..|s| - 1]) else 0
  }

  lemma {:induction false} LeadingSpaceCuts(s: string)
    ensures forall k :: 0 <= k < LeadingSpace(s) ==> IsSpace(s[k])
    ensures LeadingSpace(s) < |s| ==> !IsSpace(s[LeadingSpace(s)])
  {
    if s != "" && IsSpace(s[0]) {
      LeadingSpaceCuts(s[1..]);
      assert forall k :: 1 <= k < |s| ==> s[k] == s[1..][k - 1];
    }
  }

  lemma {:induction false} TrailingSpaceCuts(s: string)
    ensures forall k :: |s| - TrailingSpace(s) <= k < |s| ==> IsSpace(s[k])
    ensures TrailingSpace(s) < |s| ==> !IsSpace(s[|s| - 1 - TrailingSpace(s)])
  {
    if s != "" && IsSpace(s[|s| - 1]) {
      TrailingSpaceCuts(s[..|s| - 1]);
      assert forall k :: 0 <= k < |s| - 1 ==> s[k] == s[..|s| - 1][k];
    }
  }

  function TrimStart(s: string): string {
    s[LeadingSpace(s)..]
  }

  function TrimEnd(s: string): string {
    s[..|s| - TrailingSpace(s)]
  }

  /** String.prototype.trim. */
  function Trim(s: string): (r: string)
    ensures |r| <= |s|
  {
    TrimEnd(TrimStart(s))
  }

  /** Trim cuts the leading white space, then the trailing white space of
      what is left. */
  lemma TrimUnfold(s: string)
    ensures var i := LeadingSpace(s);
            var t := s[i..];
            Trim(s) == t[..|t| - TrailingSpace(t)]
  {
  }

  lemma PrefixOfSuffix(s: string, i: nat, n: nat)
    requires i + n <= |s|
    ensures s[i..][..n] == s[i..i + n]
  {
  }

  /** The trailing white space of a suffix is white space of the whole, and
      the character before it is not white space. */
  lemma TrailingOfSuffix(s: string, i: nat)
    requires i <= |s|
    ensures var j := |s| - TrailingSpace(s[i..]);
            i <= j && (forall k :: j <= k < |s| ==> IsSpace(s[k]))
            && (i < j ==> !IsSpace(s[j - 1]))
  {
    var t := s[i..];
    TrailingSpaceCuts(t);
    var j := |s| - TrailingSpace(t);
    forall k | j <= k < |s| ensures IsSpace(s[k]) {
      assert s[k] == t[k - i];
    }
    if i < j {
      assert s[j - 1] == t[|t| - 1 - TrailingSpace(t)];
    }
  }

  /** Trim returns a slice of its input with no white space at either end
      and only white space cut away. */
  lemma TrimIsSlice(s: string)
    ensures var i := LeadingSpace(s);
            var j := i + |Trim(s)|;
            j <= |s| && Trim(s) == s[i..j]
            && (forall k :: 0 <= k < i ==> IsSpace(s[k]))
            && (forall k :: j <= k < |s| ==> IsSpace(s[k]))
    ensures Trim(s) != "" ==> !IsSpace(Trim(s)[0]) && !IsSpace(Trim(s)[|Trim(s)| - 1])
  {
    var i := LeadingSpace(s);
    var t := s[i..];
    var j := |s| - TrailingSpace(t);
    TrimUnfold(s);
    PrefixOfSuffix(s, i, j - i);
    LeadingSpaceCuts(s);
    TrailingOfSuffix(s, i);
    if Trim(s) != "" {
      assert Trim(s)[0] == s[i];
      assert Trim(s)[|Trim(s)| - 1] == s[j - 1];
    }
  }

  /** Trimming adds no character. */
  lemma TrimKeepsAbsent(s: string, c: char)
    requires c !in s
    ensures c !in Trim(s)
  {
    TrimIsSlice(s);
    var i := LeadingSpace(s);
    forall m | 0 <= m < |Trim(s)| ensures Trim(s)[m] != c {
      assert Trim(s)[m] == s[i + m];
    }
  }

  lemma TrimIdempotent(s: string)
    ensures Trim(Trim(s)) == Trim(s)
  {
    TrimIsSlice(s);
  }

  /** A blank string is one that trims to "" (`!s.trim()`). */
  predicate IsBlank(s: string) {
    Trim(s) == ""
  }

  lemma BlankIffAllSpace(s: string)
    ensures IsBlank(s) <==> forall k :: 0 <= k < |s| ==> IsSpace(s[k])
  {
    TrimIsSlice(s);
    if !IsBlank(s) {
      assert Trim(s)[0] == s[LeadingSpace(s)];
    }
  }

  function LowerChar(c: char): char {
    if 'A' <= c <= 'Z' then (c as int + 32) as char else c
  }

  function UpperChar(c: char): char {
    if 'a' <= c <= 'z' then (c as int - 32) as char else c
  }

  /** String.prototype.toLowerCase, restricted to ASCII letters. */
  function Lower(s: string): (r: string)
    ensures |r| == |s| && forall i :: 0 <= i < |s| ==> r[i] == LowerChar(s[i])
  {
    seq(|s|, i requires 0 <= i < |s| => LowerChar(s[i]))
  }

  /** String.prototype.toUpperCase, restricted to ASCII letters. */
  function Upper(s: string): (r: string)
    ensures |r| == |s| && forall i :: 0 <= i < |s| ==> r[i] == UpperChar(s[i])
  {
    seq(|s|, i requires 0 <= i < |s| => UpperChar(s[i]))
  }

  /** Two names that compare equal after toLowerCase. */
  predicate SameIgnoringCase(a: string, b: string) {
    Lower(a) == Lower(b)
  }

  /** Upper-casing a name keeps its case-insensitive identity, and is idempotent:
      so a stored upper-case name still clashes with exactly the names its
      original spelling clashed with. */
  lemma UpperKeepsIdentity(s: string)
    ensures SameIgnoringCase(Upper(s), s)
    ensures Upper(Upper(s)) == Upper(s)
  {
    assert Lower(Upper(s)) == Lower(s);
  }

  lemma SameIgnoringCaseIsEquivalence(a: string, b: string, c: string)
    ensures SameIgnoringCase(a, a)
    ensures SameIgnoringCase(a, b) ==> SameIgnoringCase(b, a)
    ensures SameIgnoringCase(a, b) && SameIgnoringCase(b, c) ==> SameIgnoringCase(a, c)
  {
  }

  predicate IsUpper(s: string) {
    Upper(s) == s
  }

  /** Array.prototype.join. */
  function Join(parts: seq<string>, sep: string): (r: string)
    ensures parts == [] ==> r == ""
    ensures |parts| == 1 ==> r == parts[0]
  {
    if |parts| == 0 then "" else if |parts| == 1 then parts[0] else parts[0] + sep + Join(parts[1..], sep)
  }

  /** Joining one more part appends the separator and the part. */
  lemma {:induction false} JoinSnoc(parts: seq<string>, x: string, sep: string)
    ensures Join(parts + [x], sep) == if parts == [] then x else Join(parts, sep) + sep + x
  {
    if |parts| > 1 {
      assert (parts + [x])[1..] == parts[1..] + [x];
      JoinSnoc(parts[1..], x, sep);
    } else if |parts| == 1 {
      assert (parts + [x])[1..] == [x];
    }
  }

  /** String.prototype.split on a character class (`split(/[,;\n]/)`): the pieces
      between separators, in order, empty ones included. */
  function Split(s: string, seps: set<char>): (r: seq<string>)
    ensures |r| >= 1
    ensures forall i, k :: 0 <= i < |r| && 0 <= k < |r[i]| ==> r[i][k] !in seps
  {
    if s == "" then [""]
    else
      var rest := Split(s[1..], seps);
      if s[0] in seps then [""] + rest
      else
        var first := [s[0]] + rest[0];
        assert forall k :: 0 <= k < |first| ==> first[k] !in seps by {
          forall k | 0 <= k < |first| ensures first[k] !in seps {
            if k > 0 { assert first[k] == rest[0][k - 1]; }
          }
        }
        [first] + rest[1..]
  }

  /** Splitting on one separator and joining with it gives the string back. */
  lemma {:induction false} JoinSplit(s: string, c: char)
    ensures Join(Split(s, {c}), [c]) == s
  {
    if s != "" {
      var rest := Split(s[1..], {c});
      JoinSplit(s[1..], c);
      if s[0] == c {
        assert Split(s, {c}) == [""] + rest;
        assert Join([""] + rest, [c]) == "" + [c] + Join(rest, [c]);
      } else {
        var parts := [[s[0]] + rest[0]] + rest[1..];
        assert Split(s, {c}) == parts;
        if |rest| == 1 {
          assert Join(parts, [c]) == [s[0]] + rest[0];
        } else {
          assert Join(rest, [c]) == rest[0] + [c] + Join(rest[1..], [c]);
          assert parts[1..] == rest[1..];
          assert Join(parts, [c]) == [s[0]] + rest[0] + [c] + Join(rest[1..], [c]);
        }
      }
    }
  }

  /** A string without separators splits into itself. */
  lemma {:induction false} SplitNoSep(s: string, seps: set<char>)
    requires forall k :: 0 <= k < |s| ==> s[k] !in seps
    ensures Split(s, seps) == [s]
  {
    if s != "" {
      SplitNoSep(s[1..], seps);
      assert [s[0]] + s[1..] == s;
    }
  }

  /** The piece before the first separator comes first, then the pieces of
      the rest. */
  lemma {:induction false} SplitAtFirst(a: string, c: char, b: string, seps: set<char>)
    requires c in seps && forall k :: 0 <= k < |a| ==> a[k] !in seps
    ensures Split(a + [c] + b, seps) == [a] + Split(b, seps)
  {
    var s := a + [c] + b;
    if a == "" {
      assert s[1..] == b;
    } else {
      assert s[1..] == a[1..] + [c] + b;
      SplitAtFirst(a[1..], c, b, seps);
      assert [a[0]] + a[1..] == a;
    }
  }

  /** `sub` occurs in `s` starting at index `i`. */
  predicate OccursAt(s: string, sub: string, i: int) {
    0 <= i <= |s| - |sub| && s[i..i + |sub|] == sub
  }

  /** String.prototype.includes. */
  predicate Contains(s: string, sub: string) {
    exists i :: 0 <= i <= |s| - |sub| && OccursAt(s, sub, i)
  }

  lemma ContainsStart(sub: string, b: string)
    ensures Contains(sub + b, sub)
  {
    assert OccursAt(sub + b, sub, 0);
  }

  lemma ContainsEnd(a: string, sub: string)
    ensures Contains(a + sub, sub)
  {
    assert OccursAt(a + sub, sub, |a|);
  }

  lemma ContainsExtend(s: string, sub: string, b: string)
    requires Contains(s, sub)
    ensures Contains(s + b, sub)
  {
    var i :| 0 <= i <= |s| - |sub| && OccursAt(s, sub, i);
    assert (s + b)[i..i + |sub|] == s[i..i + |sub|];
    assert OccursAt(s + b, sub, i);
  }

  /** A string with no occurrence of `sub`'s first character cannot contain `sub`. */
  lemma NotContainsByFirstChar(s: string, sub: string)
    requires sub != ""
    requires forall k :: 0 <= k < |s| ==> s[k] != sub[0]
    ensures !Contains(s, sub)
  {
    forall i | 0 <= i <= |s| - |sub| ensures !OccursAt(s, sub, i) {
      assert s[i] != sub[0];
    }
  }

  function DigitChar(d: nat): char
    requires d < 10
  {
    ('0' as int + d) as char
  }

  /** Number.prototype.toString for a non-negative integer. */
  function NatToString(n: nat): (r: string)
    ensures r != ""
    ensures forall k :: 0 <= k < |r| ==> '0' <= r[k] <= '9'
  {
    if n < 10 then [DigitChar(n)] else NatToString(n / 10) + [DigitChar(n % 10)]
  }

  /** The value of a string of decimal digits. */
  function DigitsValue(s: string): nat
    requires forall k :: 0 <= k < |s| ==> '0' <= s[k] <= '9'
  {
    if s == "" then 0 else DigitsValue(s[..|s| - 1]) * 10 + (s[|s| - 1] as int - '0' as int)
  }

  /** The decimal rendering of a count reads back as that count. */
  lemma {:induction false} NatToStringRoundTrip(n: nat)
    ensures DigitsValue(NatToString(n)) == n
  {
    if n >= 10 {
      NatToStringRoundTrip(n / 10);
      var s := NatToString(n);
      assert s[..|s| - 1] == NatToString(n / 10);
    }
  }

  lemma NatToStringInjective(m: nat, n: nat)
    requires NatToString(m) == NatToString(n)
    ensures m == n
  {
    NatToStringRoundTrip(m);
    NatToStringRoundTrip(n);
  }
}

/** Order-keeping sequence operations: Array.prototype.filter, counting,
    `[...new Set(xs)]` and the `reduce` histograms. */
module Seqs {

  function Filter<T>(p: T -> bool, s: seq<T>): (r: seq<T>)
    ensures |r| <= |s|
    ensures forall k :: 0 <= k < |r| ==> r[k] in s && p(r[k])
    ensures forall k :: 0 <= k < |s| && p(s[k]) ==> s[k] in r
  {
    if s == [] then [] else (if p(s[0]) then [s[0]] else []) + Filter(p, s[1..])
  }

  /** `findIndex(p)`: the index of the first element satisfying `p`, or -1
      when there is none. */
  function IndexWhere<T>(s: seq<T>, p: T -> bool): (k: int)
    ensures -1 <= k < |s|
    ensures k == -1 <==> forall j :: 0 <= j < |s| ==> !p(s[j])
    ensures k >= 0 ==> p(s[k]) && forall j :: 0 <= j < k ==> !p(s[j])
  {
    if s == [] then -1
    else if p(s[0]) then 0
    else
      var k := IndexWhere(s[1..], p);
      if k == -1 then -1 else k + 1
  }

  /** `r` is `s` with some elements dropped and the rest in their order. */
  predicate IsSubseq<T(==)>(r: seq<T>, s: seq<T>)
    decreases |s|
  {
    if r == [] then true
    else if s == [] then false
    else (r[0] == s[0] && IsSubseq(r[1..], s[1..])) || IsSubseq(r, s[1..])
  }

  lemma {:induction false} FilterIsSubseq<T>(p: T -> bool, s: seq<T>)
    ensures IsSubseq(Filter(p, s), s)
  {
    if s != [] {
      FilterIsSubseq(p, s[1..]);
      if p(s[0]) {
        assert Filter(p, s) == [s[0]] + Filter(p, s[1..]);
        assert Filter(p, s)[1..] == Filter(p, s[1..]);
      } else {
        assert Filter(p, s) == Filter(p, s[1..]);
        SubseqOfTail(Filter(p, s[1..]), s);
      }
    }
  }

  lemma {:induction false} SubseqRefl<T>(s: seq<T>)
    ensures IsSubseq(s, s)
  {
    if s != [] {
      SubseqRefl(s[1..]);
    }
  }

  lemma SubseqOfTail<T>(r: seq<T>, s: seq<T>)
    requires s != [] && IsSubseq(r, s[1..])
    ensures IsSubseq(r, s)
  {
  }

  /** Filtering with every element kept returns the input unchanged. */
  lemma {:induction false} FilterAll<T>(p: T -> bool, s: seq<T>)
    requires forall k :: 0 <= k < |s| ==> p(s[k])
    ensures Filter(p, s) == s
  {
    if s != [] {
      FilterAll(p, s[1..]);
    }
  }

  /** Two filters in sequence keep exactly what their conjunction keeps. */
  lemma {:induction false} FilterFilter<T>(p: T -> bool, q: T -> bool, both: T -> bool, s: seq<T>)
    requires forall x :: both(x) == (p(x) && q(x))
    ensures Filter(q, Filter(p, s)) == Filter(both, s)
  {
    if s != [] {
      FilterFilter(p, q, both, s[1..]);
      assert both(s[0]) == (p(s[0]) && q(s[0]));
      if p(s[0]) {
        assert Filter(p, s) == [s[0]] + Filter(p, s[1..]);
        FilterCons(q, s[0], Filter(p, s[1..]));
      } else {
        assert Filter(p, s) == Filter(p, s[1..]);
      }
    }
  }

  /** Filters with pointwise equal predicates agree. */
  lemma {:induction false} FilterExt<T>(p: T -> bool, q: T -> bool, s: seq<T>)
    requires forall x :: p(x) == q(x)
    ensures Filter(p, s) == Filter(q, s)
  {
    if s != [] {
      FilterExt(p, q, s[1..]);
      assert p(s[0]) == q(s[0]);
    }
  }

  /** A filter applied only when a criterion is set is the filter by "the
      criterion is unset or holds". */
  lemma FilterWhen<T>(active: bool, p: T -> bool, q: T -> bool, s: seq<T>)
    requires forall x :: q(x) == (!active || p(x))
    ensures (if active then Filter(p, s) else s) == Filter(q, s)
  {
    if active {
      FilterExt(p, q, s);
    } else {
      FilterAll(q, s);
    }
  }

  /** A conditional filter after a filter is one filter by the conjunction. */
  lemma FilterWhenAfter<T>(prev: T -> bool, active: bool, p: T -> bool, both: T -> bool, s: seq<T>)
    requires forall x :: both(x) == (prev(x) && (!active || p(x)))
    ensures (if active then Filter(p, Filter(prev, s)) else Filter(prev, s)) == Filter(both, s)
  {
    var q := (x: T) => !active || p(x);
    FilterWhen(active, p, q, Filter(prev, s));
    FilterFilter(prev, q, both, s);
  }

  lemma FilterCons<T>(p: T -> bool, x: T, s: seq<T>)
    ensures Filter(p, [x] + s) == (if p(x) then [x] else []) + Filter(p, s)
  {
    assert ([x] + s)[1..] == s;
  }

  lemma FilterConcat<T>(p: T -> bool, a: seq<T>, b: seq<T>)
    ensures Filter(p, a + b) == Filter(p, a) + Filter(p, b)
  {
    if a != [] {
      FilterConcat(p, a[1..], b);
      assert (a + b)[0] == a[0];
      assert (a + b)[1..] == a[1..] + b;
      var h := if p(a[0]) then [a[0]] else [];
      assert Filter(p, a + b) == h + Filter(p, a[1..] + b);
      assert Filter(p, a) == h + Filter(p, a[1..]);
    } else {
      assert a + b == b;
    }
  }

  /** The number of elements satisfying `p`. */
  function Count<T>(p: T -> bool, s: seq<T>): nat {
    |Filter(p, s)|
  }

  /** `(x) => key(x) === v`. */
  function KeyEquals<T>(key: T -> string, v: string): T -> bool {
    (x: T) => key(x) == v
  }

  /** `(x) => !labels.includes(key(x))`. */
  function KeyNotAmong<T>(key: T -> string, labels: seq<string>): T -> bool {
    (x: T) => key(x) !in labels
  }

  predicate Distinct<T(==)>(xs: seq<T>) {
    forall i, j :: 0 <= i < j < |xs| ==> xs[i] != xs[j]
  }

  /** `labels.map((l) => s.filter((x) => key(x) === l).length)`. */
  function CountsPer<T>(key: T -> string, labels: seq<string>, s: seq<T>): (r: seq<nat>)
    ensures |r| == |labels| && forall i :: 0 <= i < |labels| ==> r[i] == Count(KeyEquals(key, labels[i]), s)
  {
    if labels == [] then [] else [Count(KeyEquals(key, labels[0]), s)] + CountsPer(key, labels[1..], s)
  }

  function Sum(xs: seq<nat>): nat {
    if xs == [] then 0 else xs[0] + Sum(xs[1..])
  }

  lemma {:induction false} CountsPerEmpty<T>(key: T -> string, labels: seq<string>)
    ensures Sum(CountsPer(key, labels, [])) == 0
  {
    if labels != [] {
      CountsPerEmpty(key, labels[1..]);
    }
  }

  /** One more element adds one to the count of its label, if it has one. */
  lemma {:induction false} CountsPerCons<T>(key: T -> string, labels: seq<string>, x: T, t: seq<T>)
    requires Distinct(labels)
    ensures Sum(CountsPer(key, labels, [x] + t)) == Sum(CountsPer(key, labels, t)) + (if key(x) in labels then 1 else 0)
  {
    if labels != [] {
      assert Distinct(labels[1..]) by {
        forall i, j | 0 <= i < j < |labels[1..]| ensures labels[1..][i] != labels[1..][j] {
          assert labels[1..][i] == labels[i + 1] && labels[1..][j] == labels[j + 1];
        }
      }
      CountsPerCons(key, labels[1..], x, t);
      FilterCons(KeyEquals(key, labels[0]), x, t);
      assert key(x) in labels <==> key(x) == labels[0] || key(x) in labels[1..];
      if key(x) == labels[0] {
        assert key(x) !in labels[1..] by {
          forall j | 0 <= j < |labels[1..]| ensures labels[1..][j] != labels[0] {
            assert labels[1..][j] == labels[j + 1];
          }
        }
      }
    }
  }

  /** Counting per distinct label accounts for every element whose label is
      listed; the others are those with no listed label. */
  lemma {:induction false} CountsPerPartition<T>(key: T -> string, labels: seq<string>, s: seq<T>)
    requires Distinct(labels)
    ensures Sum(CountsPer(key, labels, s)) + Count(KeyNotAmong(key, labels), s) == |s|
  {
    if s == [] {
      CountsPerEmpty(key, labels);
    } else {
      assert s == [s[0]] + s[1..];
      CountsPerCons(key, labels, s[0], s[1..]);
      CountsPerPartition(key, labels, s[1..]);
      FilterCons(KeyNotAmong(key, labels), s[0], s[1..]);
    }
  }

  lemma {:induction false} FilterMultiset<T>(p: T -> bool, s: seq<T>)
    ensures multiset(Filter(p, s)) <= multiset(s)
  {
    if s != [] {
      FilterMultiset(p, s[1..]);
      assert s == [s[0]] + s[1..];
    }
  }

  /** A filter keeps every copy of each element it accepts. */
  lemma {:induction false} FilterKeepsCopies<T>(p: T -> bool, s: seq<T>)
    ensures forall k :: 0 <= k < |s| && p(s[k]) ==> multiset(Filter(p, s))[s[k]] == multiset(s)[s[k]]
  {
    if s != [] {
      FilterKeepsCopies(p, s[1..]);
      assert s == [s[0]] + s[1..];
      FilterCons(p, s[0], s[1..]);
      forall k | 0 <= k < |s| && p(s[k])
        ensures multiset(Filter(p, s))[s[k]] == multiset(s)[s[k]]
      {
        var x := s[k];
        if x !in s[1..] {
          FilterMultiset(p, s[1..]);
          assert multiset(s[1..])[x] == 0;
          assert multiset(Filter(p, s[1..]))[x] == 0;
        } else {
          var j :| 0 <= j < |s[1..]| && s[1..][j] == x;
        }
      }
    }
  }

  /** `[...new Set(xs)]`: each value once, at the place of its first occurrence. */
  function Dedupe<T(==)>(xs: seq<T>): (r: seq<T>)
    ensures forall k :: 0 <= k < |r| ==> r[k] in xs
    ensures forall k :: 0 <= k < |xs| ==> xs[k] in r
    ensures forall i, j :: 0 <= i < j < |r| ==> r[i] != r[j]
    ensures |r| <= |xs|
  {
    if xs == [] then []
    else
      var d := Dedupe(xs[..|xs| - 1]);
      var x := xs[|xs| - 1];
      if x in d then d else d + [x]
  }

  /** The index of the first occurrence of `x` in `xs`. */
  function FirstIndex<T(==)>(xs: seq<T>, x: T): (k: nat)
    requires x in xs
    ensures k < |xs| && xs[k] == x && x !in xs[..k]
  {
    if xs[0] == x then 0 else 1 + FirstIndex(xs[1..], x)
  }

  lemma FirstIndexPrefix<T>(xs: seq<T>, n: nat, x: T)
    requires n <= |xs| && x in xs[..n]
    ensures x in xs && FirstIndex(xs[..n], x) == FirstIndex(xs, x)
  {
    var k := FirstIndex(xs[..n], x);
    var k' := FirstIndex(xs, x);
    assert xs[..n][..k] == xs[..k];
  }

  /** De-duplication keeps first-occurrence order. */
  lemma {:induction false} DedupeOrder<T>(xs: seq<T>)
    ensures forall i, j :: 0 <= i < j < |Dedupe(xs)| ==>
      FirstIndex(xs, Dedupe(xs)[i]) < FirstIndex(xs, Dedupe(xs)[j])
  {
    if xs != [] {
      var init := xs[..|xs| - 1];
      var x := xs[|xs| - 1];
      var d := Dedupe(init);
      DedupeOrder(init);
      assert init == xs[..|xs| - 1];
      forall y | y in d ensures FirstIndex(xs, y) == FirstIndex(init, y) {
        FirstIndexPrefix(xs, |xs| - 1, y);
      }
      if x !in d {
        assert FirstIndex(xs, x) == |xs| - 1;
      }
    }
  }

  /** One step of the `reduce` fold `acc[k] = (acc[k] || 0) + 1`. */
  function Bump(m: map<string, nat>, k: string): map<string, nat> {
    m[k := (if k in m then m[k] else 0) + 1]
  }

  /** The count dictionary of `keys`, folded left to right. */
  function Histogram(keys: seq<string>): (m: map<string, nat>)
    ensures forall k :: k in m <==> k in keys
    ensures forall k :: k in m ==> m[k] == multiset(keys)[k]
  {
    if keys == [] then map[]
    else
      var m := Histogram(keys[..|keys| - 1]);
      var k := keys[|keys| - 1];
      assert keys == keys[..|keys| - 1] + [k];
      Bump(m, k)
  }

  /** The sum of the values of a count dictionary. */
  ghost function MapSum(m: map<string, nat>): nat
    decreases |m|
  {
    if m == map[] then 0
    else
      var k :| k in m;
      assert |m - {k}| < |m| by { assert (m - {k}).Keys == m.Keys - {k}; }
      m[k] + MapSum(m - {k})
  }

  lemma {:induction false} MapSumPick(m: map<string, nat>, k: string)
    requires k in m
    ensures MapSum(m) == m[k] + MapSum(m - {k})
    decreases |m|
  {
    var k' :| k' in m && MapSum(m) == m[k'] + MapSum(m - {k'});
    if k' != k {
      assert (m - {k'}).Keys == m.Keys - {k'};
      assert (m - {k}).Keys == m.Keys - {k};
      MapSumPick(m - {k'}, k);
      MapSumPick(m - {k}, k');
      assert m - {k'} - {k} == m - {k} - {k'};
    }
  }

  /** The counts of a histogram add up to the number of keys folded into it. */
  lemma MapSumBump(m: map<string, nat>, k: string)
    ensures MapSum(Bump(m, k)) == MapSum(m) + 1
  {
    var m' := Bump(m, k);
    MapSumPick(m', k);
    if k in m {
      MapSumPick(m, k);
      assert m' - {k} == m - {k};
    } else {
      assert m' - {k} == m;
    }
  }

  lemma {:induction false} HistogramTotal(keys: seq<string>)
    ensures MapSum(Histogram(keys)) == |keys|
  {
    if keys != [] {
      var prefix := keys[..|keys| - 1];
      HistogramTotal(prefix);
      MapSumBump(Histogram(prefix), keys[|keys| - 1]);
    }
  }

  /** Every pair of elements, taken in order, is related by `rel`. */
  ghost predicate Pairwise<T>(s: seq<T>, rel: (T, T) -> bool) {
    forall i, j :: 0 <= i < j < |s| ==> rel(s[i], s[j])
  }

  /** Dropping elements keeps a pairwise property. */
  lemma PairwiseTail<T>(s: seq<T>, rel: (T, T) -> bool)
    requires s != [] && Pairwise(s, rel)
    ensures Pairwise(s[1..], rel)
    ensures forall k :: 0 <= k < |s[1..]| ==> rel(s[0], s[1..][k])
  {
    var tail := s[1..];
    forall i, j | 0 <= i < j < |tail| ensures rel(tail[i], tail[j]) {
      assert tail[i] == s[i + 1] && tail[j] == s[j + 1];
    }
    forall k | 0 <= k < |tail| ensures rel(s[0], tail[k]) {
      assert tail[k] == s[k + 1];
    }
  }

  lemma PairwiseCons<T>(x: T, f: seq<T>, tail: seq<T>, rel: (T, T) -> bool)
    requires Pairwise(f, rel)
    requires forall k :: 0 <= k < |tail| ==> rel(x, tail[k])
    requires forall k :: 0 <= k < |f| ==> f[k] in tail
    ensures Pairwise([x] + f, rel)
  {
    var r := [x] + f;
    forall i, j | 0 <= i < j < |r| ensures rel(r[i], r[j]) {
      assert r[j] == f[j - 1];
      if i > 0 {
        assert r[i] == f[i - 1];
      } else {
        var k :| 0 <= k < |tail| && tail[k] == f[j - 1];
      }
    }
  }

  lemma {:induction false} FilterPairwise<T>(p: T -> bool, s: seq<T>, rel: (T, T) -> bool)
    requires Pairwise(s, rel)
    ensures Pairwise(Filter(p, s), rel)
  {
    if s != [] {
      var tail := s[1..];
      PairwiseTail(s, rel);
      FilterPairwise(p, tail, rel);
      var f := Filter(p, tail);
      if p(s[0]) {
        PairwiseCons(s[0], f, tail, rel);
        assert Filter(p, s) == [s[0]] + f;
      } else {
        assert Filter(p, s) == f;
      }
    }
  }
}
