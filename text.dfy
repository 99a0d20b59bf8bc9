/** The string operations process_parameters relies on: the ordering of
    np.sort / np.unique on strings, str.lower, and str.split('.', 1). */
module Text {
  import opened Ordering

  /** Code-point lexicographic order: a proper prefix comes first,
      otherwise the first differing character decides. */
  predicate LexLess(a: string, b: string) {
    if a == [] then b != []
    else if b == [] then false
    else a[0] < b[0] || (a[0] == b[0] && LexLess(a[1..], b[1..]))
  }

  lemma {:induction false} LexLessIrreflexive(a: string)
    ensures !LexLess(a, a)
  {
    if a != [] {
      LexLessIrreflexive(a[1..]);
    }
  }

  lemma {:induction false} LexLessTransitive(a: string, b: string, c: string)
    requires LexLess(a, b) && LexLess(b, c)
    ensures LexLess(a, c)
  {
    if a != [] && b != [] && c != [] && a[0] == b[0] == c[0] {
      LexLessTransitive(a[1..], b[1..], c[1..]);
    }
  }

  lemma {:induction false} LexLessTotal(a: string, b: string)
    requires a != b
    ensures LexLess(a, b) || LexLess(b, a)
  {
    if a != [] && b != [] && a[0] == b[0] {
      assert a == [a[0]] + a[1..] && b == [b[0]] + b[1..];
      LexLessTotal(a[1..], b[1..]);
    }
  }

  lemma LexLessIsStrictTotalOrder()
    ensures StrictTotalOrder(LexLess)
  {
    forall a ensures !LexLess(a, a) {
      LexLessIrreflexive(a);
    }
    forall a, b, c | LexLess(a, b) && LexLess(b, c) ensures LexLess(a, c) {
      LexLessTransitive(a, b, c);
    }
    forall a, b | a != b ensures LexLess(a, b) || LexLess(b, a) {
      LexLessTotal(a, b);
    }
  }

  predicate IsUpper(ch: char) {
    'A' <= ch <= 'Z'
  }

  /** str.lower on one character, restricted to ASCII letters. */
  function LowerChar(ch: char): (r: char)
    ensures !IsUpper(r)
    ensures IsUpper(ch) ==> r as int == ch as int + 32
    ensures !IsUpper(ch) ==> r == ch
  {
    if IsUpper(ch) then (ch as int + 32) as char else ch
  }

  function Lower(s: string): (r: string)
    ensures |r| == |s|
    ensures forall k :: 0 <= k < |s| ==> r[k] == LowerChar(s[k])
  {
    seq(|s|, k requires 0 <= k < |s| => LowerChar(s[k]))
  }

  /** Lower-casing twice is lower-casing once, and it keeps spaces where
      they were. */
  lemma LowerIdempotent(s: string)
    ensures Lower(Lower(s)) == Lower(s)
    ensures (' ' in Lower(s)) <==> (' ' in s)
  {
    if ' ' in Lower(s) {
      var k :| 0 <= k < |s| && Lower(s)[k] == ' ';
      assert s[k] == ' ';
    }
    if ' ' in s {
      var k :| 0 <= k < |s| && s[k] == ' ';
      assert Lower(s)[k] == ' ';
    }
  }

  /** Position of the first '.' in s. */
  function FirstDot(s: string): (i: nat)
    requires '.' in s
    ensures i < |s| && s[i] == '.'
    ensures forall k :: 0 <= k < i ==> s[k] != '.'
  {
    if s[0] == '.' then 0
    else
      assert '.' in s[1..] by {
        var k :| 0 <= k < |s| && s[k] == '.';
        assert s[1..][k - 1] == '.';
      }
      1 + FirstDot(s[1..])
  }

  /** name.split('.', 1) for a name containing '.': the part before the
      first '.' and the rest after it. */
  function SplitFirstDot(name: string): (parts: (string, string))
    requires '.' in name
    ensures name == parts.0 + "." + parts.1
    ensures '.' !in parts.0
  {
    var i := FirstDot(name);
    assert name == name[..i] + "." + name[i + 1..];
    (name[..i], name[i + 1..])
  }

  /** The split is the only one whose first part holds no '.'. */
  lemma SplitFirstDotUnique(name: string, stem: string, suffix: string)
    requires name == stem + "." + suffix && '.' !in stem
    ensures SplitFirstDot(name) == (stem, suffix)
  {
    var i := FirstDot(name);
    assert name[|stem|] == '.';
    assert forall k :: 0 <= k < |stem| ==> name[k] == stem[k];
    assert i == |stem|;
    assert name[..i] == stem;
    assert name[i + 1..] == suffix;
  }

  /** np.sort on a list of names: the same names in ascending order. */
  function SortNames(names: seq<string>): (r: seq<string>)
    ensures Sorted(r, LexLess)
    ensures multiset(r) == multiset(names)
  {
    LexLessIsStrictTotalOrder();
    Sort(names, LexLess)
  }
}
