// The name converter of gin-di-router: ToSnakeCase, which turns a Go method
// name such as "GetUserData" into the route path "get_user_data".
//
// The source runs two regular-expression rewrites and then lowercases:
//   pass 1  (.)([A-Z][a-z]+)  ->  ${1}_${2}
//   pass 2  ([a-z0-9])([A-Z]) ->  ${1}_${2}
//   strings.ToLower
// Each rewrite is modelled as a left-to-right scanner that takes the leftmost
// match, consumes it entirely and resumes after it, as Go's ReplaceAllString
// does. Strings are sequences of runes; only ASCII letters change case.

module SnakeCase {

  predicate IsUpper(c: char) { 'A' <= c <= 'Z' }
  predicate IsLower(c: char) { 'a' <= c <= 'z' }
  predicate IsDigit(c: char) { '0' <= c <= '9' }

  /** The class [a-z0-9] of the second regular expression. */
  predicate IsLowerOrDigit(c: char) { IsLower(c) || IsDigit(c) }

  /** strings.ToLower on one rune, for the ASCII letters. */
  function LowerChar(c: char): (r: char)
    ensures !IsUpper(r)
    ensures IsUpper(c) ==> r as int == c as int + 32
    ensures !IsUpper(c) ==> r == c
  {
    if IsUpper(c) then (c as int + 32) as char else c
  }

  /** strings.ToLower, for the ASCII letters: every capital becomes its
      lower-case letter, every other rune stays, and no capital is left. */
  function ToLower(s: seq<char>): (r: seq<char>)
    ensures |r| == |s|
    ensures forall i :: 0 <= i < |s| ==> r[i] == LowerChar(s[i])
  {
    seq(|s|, i requires 0 <= i < |s| => LowerChar(s[i]))
  }

  // ---------------------------------------------------------------------
  // Pass 1: matchFirstCap = (.)([A-Z][a-z]+)
  // ---------------------------------------------------------------------

  /** A match of pass 1 starts at i: any rune but a newline, an upper-case
      letter, a lower-case letter. */
  predicate FirstCapAt(s: seq<char>, i: int)
  {
    0 <= i && i + 2 < |s| && s[i] != '\n' && IsUpper(s[i + 1]) && IsLower(s[i + 2])
  }

  /** matchFirstCap.ReplaceAllString(s, "${1}_${2}"): scan for the leftmost
      match; a match writes its first two runes with '_' between them and
      then runs greedily over the lower-case letters that follow. */
  function FirstCap(s: seq<char>): (r: seq<char>)
    ensures |s| <= |r|
    decreases |s|, 0
  {
    if |s| == 0 then []
    else if FirstCapAt(s, 0) then [s[0], '_', s[1]] + FirstCapRun(s[2..])
    else [s[0]] + FirstCap(s[1..])
  }

  /** The rest of a match of pass 1 (the tail of [a-z]+), then scanning
      resumes right after it. */
  function FirstCapRun(s: seq<char>): (r: seq<char>)
    ensures |s| <= |r|
    decreases |s|, 1
  {
    if |s| > 0 && IsLower(s[0]) then [s[0]] + FirstCapRun(s[1..])
    else FirstCap(s)
  }

  // ---------------------------------------------------------------------
  // Pass 2: matchAllCap = ([a-z0-9])([A-Z])
  // ---------------------------------------------------------------------

  /** A match of pass 2 starts at i. */
  predicate AllCapAt(s: seq<char>, i: int)
  {
    0 <= i && i + 1 < |s| && IsLowerOrDigit(s[i]) && IsUpper(s[i + 1])
  }

  /** matchAllCap.ReplaceAllString(s, "${1}_${2}"). */
  function AllCap(s: seq<char>): (r: seq<char>)
    ensures |s| <= |r|
    decreases |s|
  {
    if |s| == 0 then []
    else if AllCapAt(s, 0) then [s[0], '_', s[1]] + AllCap(s[2..])
    else [s[0]] + AllCap(s[1..])
  }

  /** ToSnakeCase (tool.go): the result keeps every rune of the input and
      holds no upper-case ASCII letter. */
  function ToSnakeCase(s: seq<char>): (r: seq<char>)
    ensures |s| <= |r|
    ensures forall c :: c in r ==> !IsUpper(c)
  {
    ToLower(AllCap(FirstCap(s)))
  }

  // ---------------------------------------------------------------------
  // Reference definition: the input, lowercased, with one '_' woven in
  // before every word boundary.
  // ---------------------------------------------------------------------

  /** s with an underscore inserted before s[i] wherever marks[i] holds. */
  function Weave(s: seq<char>, marks: seq<bool>): seq<char>
    requires |marks| == |s|
  {
    if s == [] then []
    else if marks[0] then ['_'] + ([s[0]] + Weave(s[1..], marks[1..]))
    else [s[0]] + Weave(s[1..], marks[1..])
  }

  /** ToSnakeCase puts an underscore before s[i] exactly when s[i] is an
      upper-case letter that is not the first rune and either follows a
      lower-case letter or digit, or follows any rune but a newline and is
      itself followed by a lower-case letter. */
  predicate IsBoundary(s: seq<char>, i: nat)
    requires i < |s|
  {
    0 < i && IsUpper(s[i]) &&
    (IsLowerOrDigit(s[i - 1]) || (s[i - 1] != '\n' && i + 1 < |s| && IsLower(s[i + 1])))
  }

  function Boundaries(s: seq<char>): (m: seq<bool>)
    ensures |m| == |s|
  {
    seq(|s|, i requires 0 <= i < |s| => IsBoundary(s, i))
  }

  function SnakeSpec(s: seq<char>): seq<char>
  {
    Weave(ToLower(s), Boundaries(s))
  }

  // ---------------------------------------------------------------------
  // Facts about Weave
  // ---------------------------------------------------------------------

  lemma {:induction false} WeaveAppend(a: seq<char>, ma: seq<bool>, b: seq<char>, mb: seq<bool>)
    requires |ma| == |a| && |mb| == |b|
    ensures Weave(a + b, ma + mb) == Weave(a, ma) + Weave(b, mb)
  {
    if a == [] {
      assert a + b == b && ma + mb == mb;
    } else {
      assert (a + b)[1..] == a[1..] + b;
      assert (ma + mb)[1..] == ma[1..] + mb;
      WeaveAppend(a[1..], ma[1..], b, mb);
    }
  }

  lemma WeaveCons(s: seq<char>, m: seq<bool>)
    requires |s| > 0 && |m| == |s| - 1
    ensures Weave(s, [false] + m) == [s[0]] + Weave(s[1..], m)
  {
    assert ([false] + m)[1..] == m;
  }

  /** Weaving with no marks changes nothing. */
  lemma {:induction false} WeaveUnmarked(s: seq<char>, m: seq<bool>)
    requires |m| == |s|
    requires forall i :: 0 <= i < |m| ==> !m[i]
    ensures Weave(s, m) == s
  {
    if s != [] {
      WeaveUnmarked(s[1..], m[1..]);
    }
  }

  /** Lowercasing commutes with weaving, since '_' is not a letter. */
  lemma {:induction false} ToLowerWeave(s: seq<char>, m: seq<bool>)
    requires |m| == |s|
    ensures ToLower(Weave(s, m)) == Weave(ToLower(s), m)
  {
    if s != [] {
      var t := ToLower(s);
      ToLowerWeave(s[1..], m[1..]);
      WeaveSplit(s, m);
      ToLowerAppend(Mark(m[0]) + [s[0]], Weave(s[1..], m[1..]));
      ToLowerMarked(m[0], s[0]);
      WeaveSplit(t, m);
      assert t[1..] == ToLower(s[1..]);
    }
  }

  /** An underscore when b holds, nothing otherwise. */
  function Mark(b: bool): seq<char>
  {
    if b then "_" else ""
  }

  lemma WeaveSplit(s: seq<char>, m: seq<bool>)
    requires |m| == |s| && |s| > 0
    ensures Weave(s, m) == Mark(m[0]) + [s[0]] + Weave(s[1..], m[1..])
  {
    WeaveUnfold(s, m);
  }

  lemma ToLowerMarked(b: bool, c: char)
    ensures ToLower(Mark(b) + [c]) == Mark(b) + [LowerChar(c)]
  {
  }

  lemma ToLowerAppend(a: seq<char>, b: seq<char>)
    ensures ToLower(a + b) == ToLower(a) + ToLower(b)
  {
  }

  // ---------------------------------------------------------------------
  // Pass 1 as a weave
  // ---------------------------------------------------------------------

  /** Pass 1 inserts underscores only at its matches, and whenever it skips
      a place where its pattern would fit, it is because the rune before had
      been consumed by the previous match, which ends in a lower-case letter. */
  lemma {:induction false} FirstCapMarks(s: seq<char>) returns (m: seq<bool>)
    ensures |m| == |s| && FirstCap(s) == Weave(s, m)
    ensures forall i :: 0 <= i < |s| && m[i] ==> FirstCapAt(s, i - 1)
    ensures forall i :: 0 < i < |s| && FirstCapAt(s, i - 1) && !m[i] ==> IsLower(s[i - 1])
    decreases |s|, 0
  {
    if |s| == 0 {
      m := [];
    } else if FirstCapAt(s, 0) {
      var rest := FirstCapRunMarks(s[2..]);
      m := [false, true] + rest;
      HeadWeave(s, rest);
      forall i | 0 <= i < |s| && m[i]
        ensures FirstCapAt(s, i - 1)
      {
        if i >= 2 {
          assert rest[i - 2];
          assert FirstCapAt(s[2..], i - 3);
        }
      }
      forall i | 0 < i < |s| && FirstCapAt(s, i - 1) && !m[i]
        ensures IsLower(s[i - 1])
      {
        assert i > 2;
        assert FirstCapAt(s[2..], i - 3);
        assert !rest[i - 2];
      }
    } else {
      var rest := FirstCapMarks(s[1..]);
      m := [false] + rest;
      WeaveCons(s, rest);
      forall i | 0 <= i < |s| && m[i]
        ensures FirstCapAt(s, i - 1)
      {
        assert rest[i - 1];
      }
      forall i | 0 < i < |s| && FirstCapAt(s, i - 1) && !m[i]
        ensures IsLower(s[i - 1])
      {
        assert i > 1;
        assert FirstCapAt(s[1..], i - 2);
        assert !rest[i - 1];
      }
    }
  }

  /** The same for the tail of a match. */
  lemma {:induction false} FirstCapRunMarks(s: seq<char>) returns (m: seq<bool>)
    ensures |m| == |s| && FirstCapRun(s) == Weave(s, m)
    ensures forall i :: 0 <= i < |s| && m[i] ==> FirstCapAt(s, i - 1)
    ensures forall i :: 0 < i < |s| && FirstCapAt(s, i - 1) && !m[i] ==> IsLower(s[i - 1])
    decreases |s|, 1
  {
    if |s| > 0 && IsLower(s[0]) {
      var rest := FirstCapRunMarks(s[1..]);
      m := [false] + rest;
      WeaveCons(s, rest);
      forall i | 0 <= i < |s| && m[i]
        ensures FirstCapAt(s, i - 1)
      {
        assert rest[i - 1];
      }
      forall i | 1 < i < |s| && FirstCapAt(s, i - 1) && !m[i]
        ensures IsLower(s[i - 1])
      {
        assert FirstCapAt(s[1..], i - 2);
        assert !rest[i - 1];
      }
    } else {
      m := FirstCapMarks(s);
    }
  }

  /** A match of pass 1 leaves no mark before its first rune and one before
      its second. */
  lemma HeadWeave(s: seq<char>, m: seq<bool>)
    requires |s| >= 2 && |m| == |s| - 2
    ensures Weave(s, [false, true] + m) == [s[0], '_', s[1]] + Weave(s[2..], m)
  {
    var w := Weave(s[2..], m);
    assert [false, true] + m == [false] + ([true] + m);
    WeaveCons(s, [true] + m);
    WeaveMarked(s[1..], m);
    assert s[1..][1..] == s[2..];
    assert [s[0]] + (['_'] + ([s[1]] + w)) == [s[0], '_', s[1]] + w;
  }

  lemma WeaveMarked(s: seq<char>, m: seq<bool>)
    requires |s| > 0 && |m| == |s| - 1
    ensures Weave(s, [true] + m) == ['_'] + ([s[0]] + Weave(s[1..], m))
  {
    assert ([true] + m)[1..] == m;
  }

  // ---------------------------------------------------------------------
  // Pass 2 on a weave
  // ---------------------------------------------------------------------

  /** Pass 2 on a string that starts with c: an underscore follows c exactly
      when c is [a-z0-9] and the next rune is upper-case. */
  lemma AllCapCons(c: char, t: seq<char>)
    ensures AllCap([c] + t) ==
      [c] + (if IsLowerOrDigit(c) && |t| > 0 && IsUpper(t[0]) then "_" else "") + AllCap(t)
  {
    var s := [c] + t;
    assert s[1..] == t;
    if AllCapAt(s, 0) {
      assert s[2..] == t[1..];
      assert !AllCapAt(t, 0);
    }
  }

  /** The marks of a weave after pass 2: the old marks, plus every place where
      an [a-z0-9] rune of s is directly followed by an upper-case one. */
  function Pass2Marks(s: seq<char>, m: seq<bool>): (r: seq<bool>)
    requires |m| == |s|
    ensures |r| == |s|
  {
    seq(|s|, i requires 0 <= i < |s| => m[i] || AllCapAt(s, i - 1))
  }

  lemma {:induction false} AllCapWeave(s: seq<char>, m: seq<bool>)
    requires |m| == |s|
    ensures AllCap(Weave(s, m)) == Weave(s, Pass2Marks(s, m))
    decreases |s|, 0
  {
    if s != [] {
      var c, t, mt := s[0], s[1..], m[1..];
      var w := Weave(t, mt);
      var p := Pass2Marks(s, m);
      assert p[0] == m[0];
      WeaveUnfold(s, m);
      WeaveUnfold(s, p);
      AllCapHead(c, t, mt, p[1..]);
      if m[0] {
        AllCapCons('_', [c] + w);
      }
    }
  }

  /** Pass 2 after the first rune c of a weave, given pass 2 on the rest. */
  lemma {:induction false} AllCapHead(c: char, t: seq<char>, mt: seq<bool>, p: seq<bool>)
    requires |mt| == |t| && |p| == |t|
    requires forall i :: 0 <= i < |t| ==> p[i] == (mt[i] || AllCapAt([c] + t, i))
    ensures AllCap([c] + Weave(t, mt)) == [c] + Weave(t, p)
    decreases |t|, 1
  {
    AllCapWeave(t, mt);
    AllCapCons(c, Weave(t, mt));
    Pass2Shift(c, t, mt, p);
  }

  lemma WeaveUnfold(s: seq<char>, m: seq<bool>)
    requires |m| == |s| && |s| > 0
    ensures Weave(s, m) == if m[0] then ['_'] + ([s[0]] + Weave(s[1..], m[1..]))
                           else [s[0]] + Weave(s[1..], m[1..])
  {
  }

  /** Where pass 2 inserts an underscore right after c, the marks of the
      rest gain one at their first position. */
  lemma Pass2Shift(c: char, t: seq<char>, mt: seq<bool>, p: seq<bool>)
    requires |mt| == |t| && |p| == |t|
    requires forall i :: 0 <= i < |t| ==> p[i] == (mt[i] || AllCapAt([c] + t, i))
    ensures
      var w := Weave(t, mt);
      (if IsLowerOrDigit(c) && |w| > 0 && IsUpper(w[0]) then "_" else "") + Weave(t, Pass2Marks(t, mt))
        == Weave(t, p)
  {
    if t != [] {
      var q := Pass2Marks(t, mt);
      assert q[1..] == p[1..] by {
        forall i | 1 <= i < |t| ensures q[i] == p[i] {
          assert AllCapAt([c] + t, i) == AllCapAt(t, i - 1);
        }
      }
    }
  }

  // ---------------------------------------------------------------------
  // The main theorem and its consequences
  // ---------------------------------------------------------------------

  /** ToSnakeCase equals the reference definition: lowercase the input and
      put one '_' before each boundary. */
  lemma ToSnakeCaseSpec(s: seq<char>)
    ensures ToSnakeCase(s) == SnakeSpec(s)
  {
    var m1 := FirstCapMarks(s);
    AllCapWeave(s, m1);
    var p := Pass2Marks(s, m1);
    forall i | 0 <= i < |s|
      ensures p[i] == IsBoundary(s, i)
    {
      if IsBoundary(s, i) && !m1[i] && !IsLowerOrDigit(s[i - 1]) {
        assert FirstCapAt(s, i - 1);
      }
    }
    assert p == Boundaries(s);
    ToLowerWeave(s, p);
  }

  /** Nothing is removed or reordered: the result is the lowercased input
      with underscores inserted, each one before an upper-case letter of the
      input that is not its first rune. */
  lemma ToSnakeCaseInsertsOnly(s: seq<char>) returns (marks: seq<bool>)
    ensures |marks| == |s| && ToSnakeCase(s) == Weave(ToLower(s), marks)
    ensures forall i :: 0 <= i < |s| && marks[i] ==> 0 < i && IsUpper(s[i])
  {
    ToSnakeCaseSpec(s);
    marks := Boundaries(s);
  }

  /** An upper-case letter that follows [a-z0-9] always gets an underscore,
      even where pass 1 consumed the rune before it. */
  lemma ToSnakeCaseSplitsCamel(s: seq<char>, i: nat)
    requires 0 < i < |s| && IsLowerOrDigit(s[i - 1]) && IsUpper(s[i])
    ensures Boundaries(s)[i]
    ensures ToSnakeCase(s) == Weave(ToLower(s[..i]), Boundaries(s)[..i])
                              + ['_', LowerChar(s[i])]
                              + Weave(ToLower(s[i + 1..]), Boundaries(s)[i + 1..])
  {
    ToSnakeCaseSpec(s);
    var t, b := ToLower(s), Boundaries(s);
    WeaveSplitAt(t, b, i);
    ToLowerSlices(s, i);
  }

  /** A weave split around position i. */
  lemma WeaveSplitAt(s: seq<char>, m: seq<bool>, i: nat)
    requires |m| == |s| && i < |s|
    ensures Weave(s, m) == Weave(s[..i], m[..i]) + (Mark(m[i]) + [s[i]]) + Weave(s[i + 1..], m[i + 1..])
  {
    var front, back, mf, mb := s[..i], s[i..], m[..i], m[i..];
    assert s == front + back && m == mf + mb;
    WeaveAppend(front, mf, back, mb);
    WeaveSplit(back, mb);
    assert back[1..] == s[i + 1..] && mb[1..] == m[i + 1..];
    var w, x, rest := Weave(front, mf), Mark(m[i]) + [s[i]], Weave(s[i + 1..], m[i + 1..]);
    assert w + (x + rest) == w + x + rest;
  }

  /** Lowercasing commutes with taking the runes before and after i. */
  lemma ToLowerSlices(s: seq<char>, i: nat)
    requires i < |s|
    ensures ToLower(s)[..i] == ToLower(s[..i])
    ensures ToLower(s)[i] == LowerChar(s[i])
    ensures ToLower(s)[i + 1..] == ToLower(s[i + 1..])
  {
  }

  /** Input without upper-case letters (empty, or already converted) comes
      back unchanged. */
  lemma ToSnakeCaseFixesLower(s: seq<char>)
    requires forall c :: c in s ==> !IsUpper(c)
    ensures ToSnakeCase(s) == s
  {
    ToSnakeCaseSpec(s);
    WeaveUnmarked(ToLower(s), Boundaries(s));
    assert ToLower(s) == s;
  }

  /** ToSnakeCase is idempotent. */
  lemma ToSnakeCaseIdempotent(s: seq<char>)
    ensures ToSnakeCase(ToSnakeCase(s)) == ToSnakeCase(s)
  {
    ToSnakeCaseFixesLower(ToSnakeCase(s));
  }

  /** Input without word boundaries is only lowercased. */
  lemma ToSnakeCaseNoBoundary(s: seq<char>)
    requires forall i :: 0 <= i < |s| ==> !IsBoundary(s, i)
    ensures ToSnakeCase(s) == ToLower(s)
  {
    ToSnakeCaseSpec(s);
    WeaveUnmarked(ToLower(s), Boundaries(s));
  }

  /** ToSnakeCase works piecewise: converting a + b converts a and b and puts
      '_' between them when the first rune of b is a boundary of a + b,
      provided the join does not turn the last rune of a into one. */
  lemma ToSnakeCaseAppend(a: seq<char>, b: seq<char>)
    requires |a| < 2 || |b| == 0 || !IsUpper(a[|a| - 1]) || !IsLower(b[0])
    ensures ToSnakeCase(a + b) ==
      ToSnakeCase(a) + (if |a| > 0 && |b| > 0 && IsBoundary(a + b, |a|) then "_" else "") + ToSnakeCase(b)
  {
    var s := a + b;
    if a == [] {
      assert s == b;
    } else if b == [] {
      assert s == a;
    } else {
      ToSnakeCaseSpec(a);
      ToSnakeCaseSpec(b);
      ToSnakeCaseSpec(s);
      SnakeSpecAppend(a, b);
    }
  }

  lemma SnakeSpecAppend(a: seq<char>, b: seq<char>)
    requires |a| > 0 && |b| > 0
    requires |a| < 2 || !IsUpper(a[|a| - 1]) || !IsLower(b[0])
    ensures SnakeSpec(a + b) ==
      SnakeSpec(a) + (if IsBoundary(a + b, |a|) then "_" else "") + SnakeSpec(b)
  {
    var x := IsBoundary(a + b, |a|);
    var rest := Boundaries(b)[1..];
    BoundariesAppend(a, b);
    ToLowerAppend(a, b);
    WeaveAppend(ToLower(a), Boundaries(a), ToLower(b), [x] + rest);
    FirstMark(ToLower(b), x, rest);
    assert Boundaries(b) == [false] + rest;
  }

  lemma BoundariesAppend(a: seq<char>, b: seq<char>)
    requires |a| > 0 && |b| > 0
    requires |a| < 2 || !IsUpper(a[|a| - 1]) || !IsLower(b[0])
    ensures Boundaries(a + b) == Boundaries(a) + ([IsBoundary(a + b, |a|)] + Boundaries(b)[1..])
  {
    var s := a + b;
    forall i | 0 <= i < |s|
      ensures Boundaries(s)[i] == (Boundaries(a) + ([IsBoundary(s, |a|)] + Boundaries(b)[1..]))[i]
    {
      if i > |a| {
        assert IsBoundary(s, i) == IsBoundary(b, i - |a|);
      }
    }
  }

  /** A mark before the first rune puts one '_' in front. */
  lemma FirstMark(t: seq<char>, x: bool, rest: seq<bool>)
    requires |t| > 0 && |rest| == |t| - 1
    ensures Weave(t, [x] + rest) == (if x then "_" else "") + Weave(t, [false] + rest)
  {
    WeaveUnfold(t, [x] + rest);
    WeaveUnfold(t, [false] + rest);
    assert ([x] + rest)[1..] == rest == ([false] + rest)[1..];
  }

  // Worked examples, built word by word.

  /** A word whose only capital, if any, is its first rune is lowercased. */
  lemma ToSnakeCaseWord(w: seq<char>)
    requires forall i :: 0 < i < |w| ==> !IsUpper(w[i])
    ensures ToSnakeCase(w) == ToLower(w)
  {
    ToSnakeCaseNoBoundary(w);
  }

  /** A capitalized word that follows any rune but a newline is split off
      with '_' and lowercased. */
  lemma ToSnakeCaseNextWord(a: seq<char>, b: seq<char>)
    requires |a| > 0 && a[|a| - 1] != '\n'
    requires |b| >= 2 && IsUpper(b[0]) && forall i :: 1 <= i < |b| ==> IsLower(b[i])
    ensures ToSnakeCase(a + b) == ToSnakeCase(a) + "_" + ToLower(b)
  {
    ToSnakeCaseWord(b);
    ToSnakeCaseAppend(a, b);
    assert IsBoundary(a + b, |a|) by {
      assert (a + b)[|a| + 1] == b[1];
    }
  }

  /** "GetUserData" becomes "get_user_data". Pass 1 misses "Data", because its
      match on "tUser" consumed the rune before it; pass 2 splits it off. */
  lemma ExampleGetUserData(get: seq<char>, user: seq<char>, data: seq<char>)
    requires get == "Get" && user == "User" && data == "Data"
    ensures ToSnakeCase(get + user + data) == "get_user_data"
  {
    ToSnakeCaseWord(get);
    ToSnakeCaseNextWord(get, user);
    assert ToSnakeCase(get + user) == "get_user";
    ToSnakeCaseNextWord(get + user, data);
    assert ToLower(data) == "data";
  }

  /** "ABCTest" becomes "abc_test": an acronym stays whole. */
  lemma ExampleAcronymFirst(abc: seq<char>, test: seq<char>)
    requires abc == "ABC" && test == "Test"
    ensures ToSnakeCase(abc + test) == "abc_test"
  {
    ToSnakeCaseNoBoundary(abc);
    ToSnakeCaseNextWord(abc, test);
  }

  /** "getHTTP" becomes "get_http": pass 2 splits a lower-case rune from
      the upper-case run after it. */
  lemma ExampleAcronymLast(get: seq<char>, http: seq<char>)
    requires get == "get" && http == "HTTP"
    ensures ToSnakeCase(get + http) == "get_http"
  {
    ToSnakeCaseFixesLower(get);
    ToSnakeCaseNoBoundary(http);
    ToSnakeCaseAppend(get, http);
    assert IsBoundary(get + http, 3);
  }

  /** "getHTTPResponse" becomes "get_http_response". */
  lemma ExampleAcronymInside(get: seq<char>, http: seq<char>, response: seq<char>)
    requires get == "get" && http == "HTTP" && response == "Response"
    ensures ToSnakeCase(get + http + response) == "get_http_response"
  {
    ExampleAcronymLast(get, http);
    ToSnakeCaseNextWord(get + http, response);
    assert ToLower(response) == "response";
  }

  /** The method of the test controller in tool_test.go is routed at
      "test_this_function". */
  lemma ExampleTestController(a: seq<char>, b: seq<char>, c: seq<char>)
    requires a == "Test" && b == "This" && c == "Function"
    ensures ToSnakeCase(a + b + c) == "test_this_function"
  {
    ExampleTestThis(a, b);
    ToSnakeCaseNextWord(a + b, c);
    assert ToLower(c) == "function";
  }

  /** Its first two words: "TestThis" becomes "test_this". */
  lemma ExampleTestThis(a: seq<char>, b: seq<char>)
    requires a == "Test" && b == "This"
    ensures ToSnakeCase(a + b) == "test_this"
  {
    ToSnakeCaseWord(a);
    ToSnakeCaseNextWord(a, b);
  }

  /** Pass 1 fires after an underscore: "Get_User" becomes "get__user". */
  lemma ExampleUnderscore(get: seq<char>, user: seq<char>)
    requires get == "Get_" && user == "User"
    ensures ToSnakeCase(get + user) == "get__user"
  {
    ToSnakeCaseWord(get);
    ToSnakeCaseNextWord(get, user);
  }

  /** ... and after a slash: "custom/Path" becomes "custom/_path". */
  lemma ExampleSlash(custom: seq<char>, path: seq<char>)
    requires custom == "custom/" && path == "Path"
    ensures ToSnakeCase(custom + path) == "custom/_path"
  {
    ToSnakeCaseFixesLower(custom);
    ToSnakeCaseNextWord(custom, path);
  }
}
