/**
 The names downFile gives its block files and the order in which the shell hands them to
 cat (client/sync.py:234-246).
 */
module BlockNames {
  import opened Basics

  // ------------------------------------------------- byte-wise name order

  predicate NameLess(a: string, b: string) {
    if b == "" then false
    else if a == "" then true
    else a[0] < b[0] || (a[0] == b[0] && NameLess(a[1..], b[1..]))
  }

  lemma {:induction false} Trichotomy(a: string, b: string)
    ensures a == b || NameLess(a, b) || NameLess(b, a)
    ensures !(NameLess(a, b) && NameLess(b, a)) && !NameLess(a, a)
  {
    if a != "" && b != "" {
      Trichotomy(a[1..], b[1..]);
      Trichotomy(a[1..], a[1..]);
      if a[0] == b[0] && a[1..] == b[1..] {
        assert a == [a[0]] + a[1..] && b == [b[0]] + b[1..];
      }
    } else if a != "" {
      Trichotomy(a[1..], a[1..]);
    }
  }

  lemma {:induction false} Transitive(a: string, b: string, c: string)
    requires NameLess(a, b) && NameLess(b, c)
    ensures NameLess(a, c)
  {
    if a != "" && a[0] == b[0] == c[0] {
      Transitive(a[1..], b[1..], c[1..]);
    }
  }

  /** A common prefix does not change the order. */
  lemma {:induction false} PrefixedLess(p: string, a: string, b: string)
    ensures NameLess(p + a, p + b) <==> NameLess(a, b)
  {
    if p == "" {
      assert p + a == a && p + b == b;
    } else {
      assert (p + a)[1..] == p[1..] + a && (p + b)[1..] == p[1..] + b;
      PrefixedLess(p[1..], a, b);
    }
  }

  /** Names of one length are ordered by their first difference. */
  lemma {:induction false} SnocLess(a: string, x: char, b: string, y: char)
    requires |a| == |b|
    ensures NameLess(a + [x], b + [y]) <==> NameLess(a, b) || (a == b && x < y)
  {
    if a == "" {
      assert (a + [x])[1..] == "" && (b + [y])[1..] == "";
    } else {
      assert (a + [x])[1..] == a[1..] + [x] && (b + [y])[1..] == b[1..] + [y];
      SnocLess(a[1..], x, b[1..], y);
      assert a == b <==> a[0] == b[0] && a[1..] == b[1..] by {
        assert a == [a[0]] + a[1..] && b == [b[0]] + b[1..];
      }
    }
  }

  // ------------------------------------------------------ the shell's sort

  predicate Ascending(names: seq<string>) {
    forall i, j | 0 <= i < j < |names| :: NameLess(names[i], names[j])
  }

  predicate IsLeast(m: string, names: set<string>) {
    m in names && forall x | x in names && x != m :: NameLess(m, x)
  }

  lemma {:induction false} LeastExists(names: set<string>)
    requires names != {}
    ensures exists m :: IsLeast(m, names)
    decreases |names|
  {
    var y :| y in names;
    var rest := names - {y};
    if rest == {} {
      assert names == {y};
      assert IsLeast(y, names);
    } else {
      LeastExists(rest);
      var m :| IsLeast(m, rest);
      Trichotomy(m, y);
      if NameLess(y, m) {
        forall x | x in names && x != y
          ensures NameLess(y, x)
        {
          if x != m {
            Transitive(y, m, x);
          }
        }
        assert IsLeast(y, names);
      } else {
        assert IsLeast(m, names);
      }
    }
  }

  lemma LeastIsUnique(m: string, m': string, names: set<string>)
    requires IsLeast(m, names) && IsLeast(m', names)
    ensures m == m'
  {
    Trichotomy(m, m');
  }

  function Least(names: set<string>): (m: string)
    requires names != {}
    ensures IsLeast(m, names)
  {
    LeastExists(names);
    assert forall a, b | IsLeast(a, names) && IsLeast(b, names) :: a == b by {
      forall a, b | IsLeast(a, names) && IsLeast(b, names)
        ensures a == b
      {
        LeastIsUnique(a, b, names);
      }
    }
    var m :| IsLeast(m, names);
    m
  }

  /** What the shell expands a pattern to: the matching names in order. */
  function SortNames(names: set<string>): (out: seq<string>)
    ensures Ascending(out)
    ensures forall x :: x in out <==> x in names
    decreases |names|
  {
    if names == {} then []
    else
      var m := Least(names);
      var tail := SortNames(names - {m});
      assert forall j | 0 <= j < |tail| :: tail[j] in names - {m};
      [m] + tail
  }

  /** There is only one way to list a set of names in order. */
  lemma {:induction false} AscendingIsUnique(a: seq<string>, b: seq<string>)
    requires Ascending(a) && Ascending(b)
    requires forall x :: x in a <==> x in b
    ensures a == b
  {
    if a == [] {
      assert forall i | 0 <= i < |b| :: b[i] in a;
    } else {
      assert a[0] in b;
      var j :| 0 <= j < |b| && b[j] == a[0];
      assert b[0] in a;
      var i :| 0 <= i < |a| && a[i] == b[0];
      Trichotomy(a[0], b[0]);
      assert a[0] == b[0];
      var a', b' := a[1..], b[1..];
      forall x
        ensures x in a' <==> x in b'
      {
        Trichotomy(a[0], a[0]);
        assert x in a <==> x == a[0] || x in a';
        assert x in b <==> x == b[0] || x in b';
        assert a[0] !in a' && b[0] !in b';
      }
      AscendingIsUnique(a', b');
    }
  }

  // -------------------------------------------------------- "_%05i" names

  function Digit(n: nat): char
    requires n < 10
  {
    "0123456789"[n]
  }

  /** The last w decimal digits of n. */
  function Fixed(n: nat, w: nat): (s: string)
    ensures |s| == w
  {
    if w == 0 then "" else Fixed(n / 10, w - 1) + [Digit(n % 10)]
  }

  /** How many decimal digits n needs. */
  function Width(n: nat): (w: nat)
    ensures w > 0
  {
    if n < 10 then 1 else 1 + Width(n / 10)
  }

  /** printf's %05i of a non-negative number. */
  function Format05(n: nat): string {
    Fixed(n, Max(5, Width(n)))
  }

  function BlockName(fi: string, n: nat): string {
    fi + "_" + Format05(n)
  }

  function Power10(w: nat): nat {
    if w == 0 then 1 else 10 * Power10(w - 1)
  }

  lemma {:induction false} FixedOrder(i: nat, j: nat, w: nat)
    requires i < j < Power10(w)
    ensures NameLess(Fixed(i, w), Fixed(j, w))
  {
    SnocLess(Fixed(i / 10, w - 1), Digit(i % 10), Fixed(j / 10, w - 1), Digit(j % 10));
    if i / 10 < j / 10 {
      FixedOrder(i / 10, j / 10, w - 1);
    }
  }

  lemma SmallWidths(n: nat)
    requires n < 100000
    ensures Format05(n) == Fixed(n, 5)
    ensures n < Power10(5)
  {
    assert Width(n) <= 5 by {
      assert n / 10 < 10000 && n / 10 / 10 < 1000 && n / 10 / 10 / 10 < 100 && n / 10 / 10 / 10 / 10 < 10;
      assert Width(n / 10 / 10 / 10 / 10) == 1;
      assert Width(n / 10 / 10 / 10) <= 2;
      assert Width(n / 10 / 10) <= 3;
      assert Width(n / 10) <= 4;
    }
    assert Power10(5) == 10 * Power10(4) && Power10(4) == 10 * Power10(3) && Power10(3) == 10 * Power10(2);
    assert Power10(2) == 100;
  }

  lemma NameOrder(fi: string, i: nat, j: nat)
    requires i < j < 100000
    ensures NameLess(BlockName(fi, i), BlockName(fi, j))
  {
    SmallWidths(i);
    SmallWidths(j);
    FixedOrder(i, j, 5);
    PrefixedLess(fi + "_", Format05(i), Format05(j));
  }

  /** The sixth digit breaks the order: block 100000 sorts before block 99999. */
  lemma SixDigitsSortEarly(fi: string)
    ensures NameLess(BlockName(fi, 100000), BlockName(fi, 99999))
  {
    SmallWidths(99999);
    assert Width(100000) == 6 by {
      assert Width(1) == 1 && Width(10) == 2 && Width(100) == 3 && Width(1000) == 4 && Width(10000) == 5;
    }
    FirstDigit(100000, 6, 1);
    FirstDigit(99999, 5, 9);
    PrefixedLess(fi + "_", Format05(100000), Format05(99999));
  }

  lemma {:induction false} FirstDigit(n: nat, w: nat, d: nat)
    requires w > 0 && d < 10
    requires d * Power10(w - 1) <= n < (d + 1) * Power10(w - 1)
    ensures Fixed(n, w)[0] == Digit(d)
  {
    if w == 1 {
      assert Fixed(n / 10, 0) == "";
    } else {
      FirstDigit(n / 10, w - 1, d);
      assert Fixed(n, w)[0] == Fixed(n / 10, w - 1)[0];
    }
  }

  /** The names of blocks 1..n sort in block order exactly when there are at most 99999 of them. */
  lemma NamesInOrderIff(fi: string, n: nat)
    ensures (forall i, j | 1 <= i < j <= n :: NameLess(BlockName(fi, i), BlockName(fi, j))) <==> n <= 99999
  {
    if n <= 99999 {
      forall i, j | 1 <= i < j <= n
        ensures NameLess(BlockName(fi, i), BlockName(fi, j))
      {
        NameOrder(fi, i, j);
      }
    } else {
      SixDigitsSortEarly(fi);
      Trichotomy(BlockName(fi, 99999), BlockName(fi, 100000));
    }
  }

  // ------------------------------------------------------------ the cat

  type Directory = map<string, Bytes>

  /** The names in dir that match the pattern prefix*. */
  function Matching(dir: Directory, prefix: string): set<string> {
    set x | x in dir && prefix <= x
  }

  function Contents(dir: Directory, names: seq<string>): (out: seq<Bytes>)
    requires forall x | x in names :: x in dir
    ensures |out| == |names| && forall i | 0 <= i < |names| :: out[i] == dir[names[i]]
  {
    seq(|names|, i requires 0 <= i < |names| => dir[names[i]])
  }

  /** cat prefix* */
  function Cat(dir: Directory, prefix: string): Bytes {
    Concat(Contents(dir, SortNames(Matching(dir, prefix))))
  }

  /** The names next() yields for n blocks: "_00001", "_00002", ... */
  function NamesUpTo(fi: string, n: nat): (names: seq<string>)
    ensures |names| == n && forall i | 0 <= i < n :: names[i] == BlockName(fi, i + 1)
  {
    seq(n, i requires 0 <= i < n => BlockName(fi, i + 1))
  }

  /** A directory that holds exactly the blocks of one download. */
  ghost predicate HoldsBlocks(dir: Directory, fi: string, blocks: seq<Bytes>) {
    var names := NamesUpTo(fi, |blocks|);
    && (forall x :: x in dir <==> x in names)
    && (forall i | 0 <= i < |blocks| :: dir[names[i]] == blocks[i])
  }

  lemma NamesUpToAscend(fi: string, n: nat)
    requires n <= 99999
    ensures Ascending(NamesUpTo(fi, n))
  {
    var names := NamesUpTo(fi, n);
    forall i, j | 0 <= i < j < n
      ensures NameLess(names[i], names[j])
    {
      NameOrder(fi, i + 1, j + 1);
    }
  }

  lemma AllMatch(dir: Directory, fi: string, n: nat)
    requires forall x :: x in dir <==> x in NamesUpTo(fi, n)
    ensures forall x :: x in Matching(dir, fi + "_") <==> x in NamesUpTo(fi, n)
  {
    forall x | x in dir
      ensures fi + "_" <= x
    {
      var i :| 0 <= i < n && NamesUpTo(fi, n)[i] == x;
      assert x == fi + "_" + Format05(i + 1);
    }
  }

  /** Then the sorted cat is the blocks in block-list order. */
  lemma CatIsConcat(dir: Directory, fi: string, blocks: seq<Bytes>)
    requires HoldsBlocks(dir, fi, blocks) && |blocks| <= 99999
    ensures Cat(dir, fi + "_") == Concat(blocks)
  {
    var names := NamesUpTo(fi, |blocks|);
    NamesUpToAscend(fi, |blocks|);
    AllMatch(dir, fi, |blocks|);
    AscendingIsUnique(SortNames(Matching(dir, fi + "_")), names);
    assert Contents(dir, names) == blocks;
  }
}
