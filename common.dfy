/** Vocabulary shared by the handlers, hooks and helpers: optional values,
    JSON replies, and the JavaScript string and array operations they use
    (truthiness, `||` defaults, `toLowerCase`, `trim`, `filter`, `findIndex`,
    regular-expression run replacement, decimal rendering of a clock reading). */
module Common {

  datatype Option<T> = None | Some(value: T)

  /** A handler's JSON reply: a success payload, or an error message, with its HTTP status. */
  datatype Reply<T> = Ok(status: nat, data: T) | Fail(status: nat, error: string)

  /** JavaScript truthiness of an optional string: present and not "". */
  predicate Truthy(o: Option<string>) {
    o.Some? && o.value != ""
  }

  /** `o || fallback` on an optional string. */
  function Or(o: Option<string>, fallback: string): string {
    if Truthy(o) then o.value else fallback
  }

  // ---------------------------------------------------------------------
  // Characters

  /** The characters JavaScript's `\s` class and `String.prototype.trim` treat
      as white space: the WhiteSpace and LineTerminator code points. */
  predicate IsSpace(c: char) {
    var n := c as int;
    n == 0x09 || n == 0x0A || n == 0x0B || n == 0x0C || n == 0x0D || n == 0x20
    || n == 0xA0 || n == 0x1680 || (0x2000 <= n <= 0x200A) || n == 0x2028
    || n == 0x2029 || n == 0x202F || n == 0x205F || n == 0x3000 || n == 0xFEFF
  }

  predicate IsAsciiUpper(c: char) { 'A' <= c <= 'Z' }

  predicate IsAsciiLower(c: char) { 'a' <= c <= 'z' }

  predicate IsDigit(c: char) { '0' <= c <= '9' }

  /** `[a-zA-Z0-9]` */
  predicate IsAsciiAlnum(c: char) { IsAsciiUpper(c) || IsAsciiLower(c) || IsDigit(c) }

  /** JavaScript's `\w`: `[A-Za-z0-9_]`. */
  predicate IsWordChar(c: char) { IsAsciiAlnum(c) || c == '_' }

  function LowerChar(c: char): char {
    if IsAsciiUpper(c) then (c as int + 32) as char else c
  }

  /** `toLowerCase`, on the ASCII letters. */
  function Lower(s: string): (r: string)
    ensures |r| == |s|
    ensures forall i :: 0 <= i < |s| ==> r[i] == LowerChar(s[i])
  {
    seq(|s|, i requires 0 <= i < |s| => LowerChar(s[i]))
  }

  /** Lowering leaves no upper-case ASCII letter and changes nothing else. */
  lemma LowerFacts(s: string)
    ensures forall c :: c in Lower(s) ==> !IsAsciiUpper(c)
    ensures (forall c :: c in s ==> !IsAsciiUpper(c)) ==> Lower(s) == s
  {
  }

  /** Lowering maps white space to itself and nothing else to white space. */
  lemma LowerCharSpace(c: char)
    ensures IsSpace(LowerChar(c)) <==> IsSpace(c)
  {
  }

  /** Lowering works character by character, so it distributes over concatenation. */
  lemma {:induction false} LowerAppend(a: string, b: string)
    ensures Lower(a + b) == Lower(a) + Lower(b)
  {
  }

  // ---------------------------------------------------------------------
  // Trimming and run replacement

  /** Removes the longest prefix whose characters all satisfy `p` (a `^p+` replacement). */
  function DropLeading(s: string, p: char -> bool): (r: string)
    ensures |r| <= |s| && r == s[|s| - |r|..]
    ensures forall i :: 0 <= i < |s| - |r| ==> p(s[i])
    ensures r != [] ==> !p(r[0])
    decreases |s|
  {
    if s != [] && p(s[0]) then DropLeading(s[1..], p) else s
  }

  /** Removes the longest suffix whose characters all satisfy `p` (a `p+$` replacement). */
  function DropTrailing(s: string, p: char -> bool): (r: string)
    ensures |r| <= |s| && r == s[..|r|]
    ensures forall i :: |r| <= i < |s| ==> p(s[i])
    ensures r != [] ==> !p(r[|r| - 1])
    decreases |s|
  {
    if s != [] && p(s[|s| - 1]) then DropTrailing(s[..|s| - 1], p) else s
  }

  /** Neither end is white space. */
  predicate Trimmed(s: string) {
    s == [] || (!IsSpace(s[0]) && !IsSpace(s[|s| - 1]))
  }

  /** `String.prototype.trim`. */
  function Trim(s: string): (r: string)
    ensures |r| <= |s|
    ensures Trimmed(r)
    ensures Trimmed(s) ==> r == s
  {
    var front := DropLeading(s, IsSpace);
    var r := DropTrailing(front, IsSpace);
    if r != [] then
      assert r[0] == front[0];
      r
    else r
  }

  /** Trimming keeps only characters of `s`, and gives "" exactly when `s` is all white space. */
  lemma TrimChars(s: string)
    ensures forall c :: c in Trim(s) ==> c in s
    ensures (forall c :: c in s ==> IsSpace(c)) <==> Trim(s) == []
  {
    var front := DropLeading(s, IsSpace);
    var r := DropTrailing(front, IsSpace);
    assert forall c :: c in r ==> c in front;
    assert forall c :: c in front ==> c in s;
  }

  /** `trim` removes exactly the white space at the two ends: the result is
      the slice of `s` between its leading and its trailing white space. With
      `Trimmed(Trim(s))` this pins the result down. */
  lemma TrimIsSlice(s: string) returns (a: nat)
    ensures a + |Trim(s)| <= |s| && Trim(s) == s[a..a + |Trim(s)|]
    ensures forall i :: 0 <= i < a ==> IsSpace(s[i])
    ensures forall i :: a + |Trim(s)| <= i < |s| ==> IsSpace(s[i])
  {
    var r := DropTrailing(DropLeading(s, IsSpace), IsSpace);
    assert Trim(s) == r;
    a := DropBothIsSlice(s, IsSpace);
    DropBothOutside(s, IsSpace, a);
  }

  /** Dropping a leading and then a trailing run of `p` leaves a slice of
      `s`, starting where the leading run ends. */
  lemma DropBothIsSlice(s: string, p: char -> bool) returns (a: nat)
    ensures a == |s| - |DropLeading(s, p)|
    ensures var r := DropTrailing(DropLeading(s, p), p);
      a + |r| <= |s| && r == s[a..a + |r|]
  {
    var front := DropLeading(s, p);
    a := |s| - |front|;
  }

  /** Outside that slice every character satisfies `p`. */
  lemma DropBothOutside(s: string, p: char -> bool, a: nat)
    requires a == |s| - |DropLeading(s, p)|
    ensures forall i :: 0 <= i < a ==> p(s[i])
    ensures forall i :: a + |DropTrailing(DropLeading(s, p), p)| <= i < |s| ==> p(s[i])
  {
    var front := DropLeading(s, p);
    var r := DropTrailing(front, p);
    forall i | a + |r| <= i < |s| ensures p(s[i]) {
      assert s[i] == front[i - a];
    }
  }

  /** Replaces every maximal run of characters satisfying `inRun` by one "-"
      (the global replacement `s.replace(/R+/g, '-')` for a character class R). */
  function CollapseRuns(s: string, inRun: char -> bool): (r: string)
    ensures s != [] && !inRun(s[0]) ==> r != [] && r[0] == s[0]
    ensures s != [] && inRun(s[0]) ==> r != [] && r[0] == '-'
    ensures inRun('-') ==> NoDoubleDash(r)
    decreases |s|
  {
    if s == [] then []
    else if inRun(s[0]) then
      var rest := DropLeading(s[1..], inRun);
      "-" + CollapseRuns(rest, inRun)
    else [s[0]] + CollapseRuns(s[1..], inRun)
  }

  /** Collapsing leaves only "-" and characters of the input outside the class. */
  lemma {:induction false} CollapseRunsChars(s: string, inRun: char -> bool)
    ensures forall c :: c in CollapseRuns(s, inRun) ==> c == '-' || (c in s && !inRun(c))
    decreases |s|
  {
    if s != [] {
      var r := CollapseRuns(s, inRun);
      if inRun(s[0]) {
        var rest := DropLeading(s[1..], inRun);
        CollapseRunsChars(rest, inRun);
        assert r == "-" + CollapseRuns(rest, inRun);
        forall c | c in rest ensures c in s {
          var k :| 0 <= k < |rest| && rest[k] == c;
          assert s[|s| - |rest| + k] == c;
        }
      } else {
        CollapseRunsChars(s[1..], inRun);
        assert r == [s[0]] + CollapseRuns(s[1..], inRun);
      }
    }
  }

  /** No "-" is immediately followed by another "-". */
  predicate NoDoubleDash(s: string) {
    forall i :: 0 <= i < |s| - 1 ==> !(s[i] == '-' && s[i + 1] == '-')
  }

  /** A string whose only run character is a lone "-" is left as it is by CollapseRuns. */
  lemma {:induction false} CollapseRunsIdentity(s: string, inRun: char -> bool)
    requires forall c :: c in s && inRun(c) ==> c == '-'
    requires NoDoubleDash(s)
    ensures CollapseRuns(s, inRun) == s
    decreases |s|
  {
    if s != [] {
      assert NoDoubleDash(s[1..]);
      if inRun(s[0]) {
        if |s| > 1 {
          assert s[1] in s;
          assert !inRun(s[1]);
        }
        assert DropLeading(s[1..], inRun) == s[1..];
      }
      CollapseRunsIdentity(s[1..], inRun);
      assert s == [s[0]] + s[1..];
    }
  }

  /** Dropping a leading run of `p` characters that is followed by a non-`p` character leaves the rest. */
  lemma {:induction false} DropLeadingRun(w: string, s: string, p: char -> bool)
    requires forall i :: 0 <= i < |w| ==> p(w[i])
    requires s != [] ==> !p(s[0])
    ensures DropLeading(w + s, p) == s
    decreases |w|
  {
    if w == [] {
      assert w + s == s;
    } else {
      assert (w + s)[0] == w[0] && (w + s)[1..] == w[1..] + s;
      DropLeadingRun(w[1..], s, p);
    }
  }

  /** A character outside the class is copied to the result. */
  lemma CollapseRunsKept(c: char, s: string, inRun: char -> bool)
    requires !inRun(c)
    ensures CollapseRuns([c] + s, inRun) == [c] + CollapseRuns(s, inRun)
  {
    assert ([c] + s)[1..] == s;
  }

  /** A maximal run of class characters becomes a single "-". */
  lemma CollapseRunsRun(w: string, s: string, inRun: char -> bool)
    requires w != [] && forall i :: 0 <= i < |w| ==> inRun(w[i])
    requires s != [] ==> !inRun(s[0])
    ensures CollapseRuns(w + s, inRun) == "-" + CollapseRuns(s, inRun)
  {
    assert (w + s)[0] == w[0] && (w + s)[1..] == w[1..] + s;
    DropLeadingRun(w[1..], s, inRun);
  }

  /** A prefix without class characters is copied as it is. */
  lemma {:induction false} CollapseRunsPrefix(a: string, t: string, inRun: char -> bool)
    requires forall i :: 0 <= i < |a| ==> !inRun(a[i])
    ensures CollapseRuns(a + t, inRun) == a + CollapseRuns(t, inRun)
    decreases |a|
  {
    if a == [] {
      assert a + t == t;
    } else {
      assert a + t == [a[0]] + (a[1..] + t);
      CollapseRunsKept(a[0], a[1..] + t, inRun);
      CollapseRunsPrefix(a[1..], t, inRun);
      assert a == [a[0]] + a[1..];
    }
  }

  /** Two words around a run: the run between them becomes one "-". */
  lemma CollapseRunsWords(x: string, w: string, y: string, inRun: char -> bool)
    requires forall i :: 0 <= i < |x| ==> !inRun(x[i])
    requires w != [] && forall i :: 0 <= i < |w| ==> inRun(w[i])
    requires forall i :: 0 <= i < |y| ==> !inRun(y[i])
    ensures CollapseRuns(x + w + y, inRun) == x + "-" + y
  {
    CollapseRunsRunWord(w, y, inRun);
    assert x + w + y == x + (w + y);
    CollapseRunsPrefix(x, w + y, inRun);
  }

  /** A run followed by a word becomes "-" and the word. */
  lemma CollapseRunsRunWord(w: string, y: string, inRun: char -> bool)
    requires w != [] && forall i :: 0 <= i < |w| ==> inRun(w[i])
    requires forall i :: 0 <= i < |y| ==> !inRun(y[i])
    ensures CollapseRuns(w + y, inRun) == "-" + y
  {
    CollapseRunsRun(w, y, inRun);
    CollapseRunsPrefix(y, [], inRun);
    assert y + [] == y;
  }

  /** The characters that are neither in the class nor "-". */
  function Outside(inRun: char -> bool): char -> bool {
    c => !inRun(c) && c != '-'
  }

  /** Characters neither dropped by a run nor equal to the "-" it leaves are never dropped. */
  lemma {:induction false} FilterDropLeading(s: string, p: char -> bool, q: char -> bool)
    requires forall c :: p(c) ==> !q(c)
    ensures Filter(DropLeading(s, p), q) == Filter(s, q)
    decreases |s|
  {
    if s != [] && p(s[0]) {
      FilterDropLeading(s[1..], p, q);
    }
  }

  /** Collapsing keeps every character outside the class other than "-", in
      order: with its dashes left out, the result is the input without its
      class characters and dashes. */
  lemma {:induction false} CollapseRunsKeepsOthers(s: string, inRun: char -> bool)
    ensures Filter(CollapseRuns(s, inRun), Outside(inRun)) == Filter(s, Outside(inRun))
    decreases |s|
  {
    var q := Outside(inRun);
    if s != [] {
      if inRun(s[0]) {
        var rest := DropLeading(s[1..], inRun);
        CollapseRunsKeepsOthers(rest, inRun);
        FilterDropLeading(s[1..], inRun, q);
        assert ("-" + CollapseRuns(rest, inRun))[1..] == CollapseRuns(rest, inRun);
      } else {
        CollapseRunsKeepsOthers(s[1..], inRun);
        assert ([s[0]] + CollapseRuns(s[1..], inRun))[1..] == CollapseRuns(s[1..], inRun);
      }
    }
  }

  /** The pieces of `base + "-" + suffix` are where they were put. */
  lemma JoinSuffix(base: string, suffix: string)
    ensures var slug := base + "-" + suffix;
      && |slug| == |base| + 1 + |suffix|
      && slug[..|base|] == base
      && slug[|base|] == '-'
      && slug[|base| + 1..] == suffix
  {
    var slug := base + "-" + suffix;
    assert slug[..|base|] == base;
    assert slug[|base| + 1..] == suffix;
  }

  /** `s.substring(0, n)`. */
  function Take(s: string, n: nat): (r: string)
    ensures |r| <= n && |r| <= |s|
    ensures r == s[..|r|]
    ensures |s| <= n ==> r == s
  {
    if |s| <= n then s else s[..n]
  }

  // ---------------------------------------------------------------------
  // Numbers

  function DigitChar(d: nat): char
    requires d < 10
  {
    "0123456789"[d]
  }

  /** The decimal rendering of a natural number, as a template string renders `Date.now()`. */
  function Decimal(n: nat): (r: string)
    ensures r != []
    ensures forall c :: c in r ==> IsDigit(c)
    ensures n >= 10 ==> r[0] != '0'
    decreases n
  {
    if n < 10 then [DigitChar(n)] else Decimal(n / 10) + [DigitChar(n % 10)]
  }

  lemma DigitCharInjective(a: nat, b: nat)
    requires a < 10 && b < 10 && DigitChar(a) == DigitChar(b)
    ensures a == b
  {
  }

  /** Different numbers render differently, so ids built from distinct numbers differ. */
  lemma {:induction false} DecimalInjective(a: nat, b: nat)
    requires Decimal(a) == Decimal(b)
    ensures a == b
    decreases a
  {
    if a < 10 && b < 10 {
      DigitCharInjective(a, b);
    } else if a >= 10 && b >= 10 {
      var da, db := Decimal(a), Decimal(b);
      assert da[|da| - 1] == DigitChar(a % 10) && db[|db| - 1] == DigitChar(b % 10);
      DigitCharInjective(a % 10, b % 10);
      assert Decimal(a / 10) == da[..|da| - 1];
      assert Decimal(b / 10) == db[..|db| - 1];
      DecimalInjective(a / 10, b / 10);
    }
  }

  // ---------------------------------------------------------------------
  // Arrays

  /** `Array.prototype.filter`: the elements satisfying `p`, in order. */
  function Filter<T>(s: seq<T>, p: T -> bool): (r: seq<T>)
    ensures |r| <= |s|
    ensures forall i :: 0 <= i < |r| ==> p(r[i])
  {
    if s == [] then [] else (if p(s[0]) then [s[0]] else []) + Filter(s[1..], p)
  }

  /** The filter holds elements of the sequence only, and every element satisfying `p`. */
  lemma {:induction false} FilterMembers<T>(s: seq<T>, p: T -> bool)
    ensures forall i :: 0 <= i < |Filter(s, p)| ==> Filter(s, p)[i] in s
    ensures forall i :: 0 <= i < |s| && p(s[i]) ==> s[i] in Filter(s, p)
  {
    if s != [] {
      FilterMembers(s[1..], p);
      var r, t := Filter(s, p), Filter(s[1..], p);
      assert r == (if p(s[0]) then [s[0]] else []) + t;
      forall i | 0 <= i < |r| ensures r[i] in s {
        if p(s[0]) && i == 0 {
          assert r[i] == s[0];
        } else {
          var k := if p(s[0]) then i - 1 else i;
          assert r[i] == t[k] && t[k] in s[1..];
        }
      }
      forall i | 0 <= i < |s| && p(s[i]) ensures s[i] in r {
        if i > 0 {
          assert s[i] == s[1..][i - 1];
        }
      }
    }
  }

  /** Filtering distributes over concatenation: the kept elements keep their order. */
  lemma {:induction false} FilterAppend<T>(a: seq<T>, b: seq<T>, p: T -> bool)
    ensures Filter(a + b, p) == Filter(a, p) + Filter(b, p)
  {
    if a == [] {
      assert a + b == b;
    } else {
      assert (a + b)[1..] == a[1..] + b;
      FilterAppend(a[1..], b, p);
    }
  }

  /** A sequence whose every element satisfies `p` is its own filter. */
  lemma {:induction false} FilterKeepsAll<T>(s: seq<T>, p: T -> bool)
    requires forall i :: 0 <= i < |s| ==> p(s[i])
    ensures Filter(s, p) == s
  {
    if s != [] {
      FilterKeepsAll(s[1..], p);
    }
  }

  /** A sequence none of whose elements satisfies `p` filters to nothing. */
  lemma {:induction false} FilterKeepsNone<T>(s: seq<T>, p: T -> bool)
    requires forall i :: 0 <= i < |s| ==> !p(s[i])
    ensures Filter(s, p) == []
  {
    if s != [] {
      FilterKeepsNone(s[1..], p);
    }
  }

  /** The negation of a callback. */
  function Not<T>(p: T -> bool): T -> bool {
    x => !p(x)
  }

  lemma FilterSingleton<T>(x: T, p: T -> bool)
    ensures Filter([x], p) == if p(x) then [x] else []
  {
    assert [x][1..] == [];
  }

  /** When only index i satisfies `p`, the filter is that one element. */
  lemma {:induction false} FilterOnlyAt<T>(s: seq<T>, p: T -> bool, i: nat)
    requires i < |s| && p(s[i])
    requires forall j :: 0 <= j < |s| && j != i ==> !p(s[j])
    ensures Filter(s, p) == [s[i]]
  {
    var t := s[1..];
    if i == 0 {
      assert forall j :: 0 <= j < |t| ==> t[j] == s[j + 1];
      FilterKeepsNone(t, p);
    } else {
      assert forall j :: 0 <= j < |t| ==> t[j] == s[j + 1];
      FilterOnlyAt(t, p, i - 1);
    }
  }

  /** `splice(i, 1)`: the sequence without its element at index i. */
  function Splice<T>(s: seq<T>, i: nat): (r: seq<T>)
    requires i < |s|
    ensures |r| == |s| - 1
    ensures forall k :: 0 <= k < |r| ==> r[k] == if k < i then s[k] else s[k + 1]
  {
    s[..i] + s[i + 1..]
  }

  /** Splicing below the head keeps the head and splices the tail. */
  lemma SpliceTail<T>(s: seq<T>, i: nat)
    requires 0 < i < |s|
    ensures Splice(s, i) == [s[0]] + Splice(s[1..], i - 1)
  {
  }

  /** Splicing out an element the filter drops does not change the filter. */
  lemma {:induction false} SpliceKeepsFilter<T>(s: seq<T>, p: T -> bool, i: nat)
    requires i < |s| && !p(s[i])
    ensures Filter(Splice(s, i), p) == Filter(s, p)
  {
    if i == 0 {
      assert Splice(s, 0) == s[1..];
    } else {
      SpliceTail(s, i);
      assert ([s[0]] + Splice(s[1..], i - 1))[1..] == Splice(s[1..], i - 1);
      SpliceKeepsFilter(s[1..], p, i - 1);
    }
  }

  /** `splice(i, 1)` at the first index satisfying `p` removes the first
      element satisfying `p`, and the later ones keep their order. */
  lemma {:induction false} SpliceFirstDropsFirst<T>(s: seq<T>, p: T -> bool, i: nat)
    requires i < |s| && p(s[i])
    requires forall j :: 0 <= j < i ==> !p(s[j])
    ensures Filter(s, p) == [s[i]] + Filter(Splice(s, i), p)
  {
    if i == 0 {
      assert Splice(s, 0) == s[1..];
    } else {
      SpliceTail(s, i);
      assert ([s[0]] + Splice(s[1..], i - 1))[1..] == Splice(s[1..], i - 1);
      SpliceFirstDropsFirst(s[1..], p, i - 1);
    }
  }

  /** Replacing an element the filter drops by another one it drops does not change the filter. */
  lemma {:induction false} UpdateKeepsFilter<T>(s: seq<T>, p: T -> bool, i: nat, y: T)
    requires i < |s| && !p(s[i]) && !p(y)
    ensures Filter(s[i := y], p) == Filter(s, p)
  {
    if i == 0 {
      assert s[0 := y][1..] == s[1..];
    } else {
      assert s[i := y][1..] == s[1..][i - 1 := y];
      UpdateKeepsFilter(s[1..], p, i - 1, y);
    }
  }

  /** `splice(i, 1)` where `p` holds keeps all elements not satisfying `p`, in order. */
  lemma SpliceKeepsOthers<T>(s: seq<T>, p: T -> bool, i: nat)
    requires i < |s| && p(s[i])
    ensures Filter(Splice(s, i), Not(p)) == Filter(s, Not(p))
  {
    SpliceKeepsFilter(s, Not(p), i);
  }

  /** An element the filter drops can be left out before filtering. */
  lemma FilterSkips<T>(a: seq<T>, x: T, b: seq<T>, q: T -> bool)
    requires !q(x)
    ensures Filter(a + [x] + b, q) == Filter(a + b, q)
  {
    FilterSingleton(x, q);
    FilterAppend(a, b, q);
    FilterAppend(a, [x], q);
    FilterAppend(a + [x], b, q);
  }

  /** `Array.prototype.findIndex`: the first index whose element satisfies `p`, or -1. */
  function IndexWhere<T>(s: seq<T>, p: T -> bool): (i: int)
    ensures -1 <= i < |s|
    ensures 0 <= i ==> p(s[i])
    ensures 0 <= i ==> forall j :: 0 <= j < i ==> !p(s[j])
    ensures i < 0 ==> forall j :: 0 <= j < |s| ==> !p(s[j])
  {
    if s == [] then -1
    else if p(s[0]) then 0
    else
      var k := IndexWhere(s[1..], p);
      if k < 0 then -1 else k + 1
  }

  /** `Array.prototype.find`: the first element satisfying `p`, if any. */
  function First<T>(s: seq<T>, p: T -> bool): (r: Option<T>)
    ensures r.None? <==> forall i :: 0 <= i < |s| ==> !p(s[i])
    ensures r.Some? ==> r.value in s && p(r.value)
    ensures r.Some? ==> r.value == s[IndexWhere(s, p)]
  {
    var i := IndexWhere(s, p);
    if i < 0 then None else Some(s[i])
  }

  /** `find` on a sequence whose head fails `p` is `find` on its tail. */
  lemma FirstSkipsHead<T>(s: seq<T>, p: T -> bool)
    requires s != []
    ensures First(s, p) == if p(s[0]) then Some(s[0]) else First(s[1..], p)
  {
  }

  /** The linear scan behind `findIndex` and `indexOf`. */
  method FindIndex<T>(s: seq<T>, p: T -> bool) returns (i: int)
    ensures i == IndexWhere(s, p)
  {
    i := 0;
    while i < |s|
      invariant 0 <= i <= |s|
      invariant forall j :: 0 <= j < i ==> !p(s[j])
    {
      if p(s[i]) {
        IndexWhereIsFirst(s, p, i);
        return;
      }
      i := i + 1;
    }
    i := -1;
  }

  /** The first index satisfying `p` is the one IndexWhere reports. */
  lemma IndexWhereIsFirst<T>(s: seq<T>, p: T -> bool, i: nat)
    requires i < |s| && p(s[i])
    requires forall j :: 0 <= j < i ==> !p(s[j])
    ensures IndexWhere(s, p) == i
  {
  }
}
