/**
 * The "next sequence number" rule that every script uses to name its new file from a directory
 * listing: take the text between each name's last '-' and its first '.', read it with
 * `parseInt(text, 10)`, drop the NaNs, sort with the default comparator, and take the last
 * element plus one (0 when nothing was read). The four scripts differ only in the prefix,
 * extension and folder they put around the number, and in the one copy that indexes past the end.
 */
module SequenceNaming {
  import opened Wrappers
  import opened JsString
  import opened JsSort

  /** `f.slice(f.lastIndexOf('-') + 1, f.indexOf('.'))`. */
  function SequenceText(f: string): string
  {
    Slice(f, LastIndexOf(f, "-") + 1, IndexOf(f, "."))
  }

  /** The name `${stem}-${n}${ext}` that a script builds around a sequence number. */
  function SequenceName(stem: string, n: int, ext: string): string
  {
    stem + "-" + IntToString(n) + ext
  }

  /** `parseInt(text, 10)` of the sequence text, None standing for NaN (`isNaN(num) ? null : num`). */
  function SequenceNumber(f: string): Option<int>
  {
    ParseInt(SequenceText(f))
  }

  /** `files.map(...).filter(n => n !== null)`: the numbers read from the listing, in listing order. */
  function Parsed(files: seq<string>): seq<int>
  {
    if files == [] then []
    else
      (match SequenceNumber(files[0]) case Some(n) => [n] case None => []) + Parsed(files[1..])
  }

  /** The parsed list, after the default `sort()`. */
  function SortedSequences(files: seq<string>): seq<int>
  {
    DefaultSort(Parsed(files))
  }

  /** Sorting keeps every parsed number. */
  lemma SortedLength(files: seq<string>)
    ensures |SortedSequences(files)| == |Parsed(files)|
  {
    var sorted := SortedSequences(files);
    DefaultSortSpec(Parsed(files));
    assert |sorted| == |multiset(sorted)| == |multiset(Parsed(files))| == |Parsed(files)|;
  }

  /** `sequences.length > 0 ? sequences[sequences.length - 1] + 1 : 0`. */
  function NextSequence(files: seq<string>): int
  {
    var sorted := SortedSequences(files);
    if |sorted| > 0 then sorted[|sorted| - 1] + 1 else 0
  }

  // ---------------------------------------------------------------------------
  // What is read from one name

  /** A number is read from the listing exactly when some name yields it. */
  lemma {:induction false} ParsedMembers(files: seq<string>)
    ensures forall n :: n in Parsed(files) <==>
      exists i :: 0 <= i < |files| && SequenceNumber(files[i]) == Some(n)
  {
    if files != [] {
      ParsedMembers(files[1..]);
      forall n
        ensures n in Parsed(files) <==> exists i :: 0 <= i < |files| && SequenceNumber(files[i]) == Some(n)
      {
        if n in Parsed(files[1..]) {
          var i :| 0 <= i < |files[1..]| && SequenceNumber(files[1..][i]) == Some(n);
          assert SequenceNumber(files[i + 1]) == Some(n);
        }
        if exists i :: 0 <= i < |files| && SequenceNumber(files[i]) == Some(n) {
          var i :| 0 <= i < |files| && SequenceNumber(files[i]) == Some(n);
          if i > 0 {
            assert SequenceNumber(files[1..][i - 1]) == Some(n);
          }
        }
      }
    }
  }

  /** The sequence text lies after the last '-', so it holds no '-'. */
  lemma SequenceTextHasNoMinus(f: string)
    ensures '-' !in SequenceText(f)
  {
    var start := LastIndexOf(f, "-") + 1;
    LastIndexOfSpec(f, "-");
    var from := RelativeIndex(start, |f|);
    var to := RelativeIndex(IndexOf(f, "."), |f|);
    var text := if from < to then f[from..to] else [];
    assert SequenceText(f) == text;
    forall i | 0 <= i < |text|
      ensures text[i] != '-'
    {
      assert text[i] == f[from + i];
      OccursAtChar(f, '-', from + i);
    }
  }

  /** Every number read from a name is non-negative. */
  lemma SequenceNumberNonNegative(f: string)
    ensures SequenceNumber(f).Some? ==> SequenceNumber(f).value >= 0
  {
    SequenceTextHasNoMinus(f);
    ParseIntNoMinus(SequenceText(f));
  }

  /** A name with no '.' loses its last character: `indexOf('.')` is -1 and slice counts from the end. */
  lemma NoDotDropsLastChar(f: string)
    requires '.' !in f
    ensures var start := LastIndexOf(f, "-") + 1;
      SequenceText(f) == if start < |f| - 1 then f[start..|f| - 1] else []
  {
    forall k
      ensures !OccursAt(f, ".", k)
    {
      OccursAtChar(f, '.', k);
    }
    IndexOfSpec(f, ".");
    LastIndexOfSpec(f, "-");
    assert IndexOf(f, ".") == -1;
  }

  /** A name whose first '.' stands before its last '-' yields empty text, hence no number. */
  lemma DotBeforeLastDash(f: string)
    requires 0 <= IndexOf(f, ".") < LastIndexOf(f, "-")
    ensures SequenceText(f) == []
    ensures SequenceNumber(f) == None
  {
    LastIndexOfSpec(f, "-");
  }

  /** A name built as stem-N.ext is read back as N, when the stem has no '.' and ext starts with '.' and has no '-'. */
  lemma SequenceNumberRoundTrip(stem: string, n: nat, ext: string)
    requires '.' !in stem && |ext| > 0 && ext[0] == '.' && '-' !in ext
    ensures SequenceNumber(SequenceName(stem, n, ext)) == Some(n)
  {
    var digits := IntToString(n);
    var f := SequenceName(stem, n, ext);
    NatTextPlain(n);
    assert f == stem + ['-'] + (digits + ext);
    LastIndexOfSplit(stem, '-', digits + ext);
    assert f == (stem + "-" + digits) + ['.'] + ext[1..];
    assert '.' !in stem + "-" + digits;
    IndexOfSplit(stem + "-" + digits, '.', ext[1..]);
    assert SequenceText(f) == f[|stem| + 1..|stem| + 1 + |digits|] == digits;
    ParseIntToString(n);
  }

  // ---------------------------------------------------------------------------
  // The chosen number

  lemma {:induction false} ParsedNonNegative(files: seq<string>)
    ensures forall n :: n in Parsed(files) ==> n >= 0
  {
    ParsedMembers(files);
    forall n | n in Parsed(files)
      ensures n >= 0
    {
      var i :| 0 <= i < |files| && SequenceNumber(files[i]) == Some(n);
      SequenceNumberNonNegative(files[i]);
    }
  }

  /**
   * The chosen number is 0 exactly when no name yields a number; otherwise it is one more than
   * the number whose decimal text is greatest in string order (not the numerically greatest).
   */
  lemma NextSequenceSpec(files: seq<string>)
    ensures var n := NextSequence(files);
      n >= 0
      && (n == 0 <==> Parsed(files) == [])
      && (Parsed(files) != [] ==>
            n - 1 in Parsed(files) && forall x :: x in Parsed(files) ==> KeyLe(x, n - 1))
  {
    var p := Parsed(files);
    var sorted := SortedSequences(files);
    DefaultSortSpec(p);
    assert multiset(sorted) == multiset(p);
    ParsedNonNegative(files);
    if p != [] {
      SortedLastIsGreatest(p, sorted);
    } else {
      assert |sorted| == |multiset(sorted)| == 0;
    }
  }

  /** The last element of a sorted arrangement of `p` belongs to `p` and has its greatest text. */
  lemma SortedLastIsGreatest(p: seq<int>, sorted: seq<int>)
    requires Sorted(sorted) && multiset(sorted) == multiset(p) && p != []
    ensures sorted != [] && sorted[|sorted| - 1] in p
    ensures forall x :: x in p ==> KeyLe(x, sorted[|sorted| - 1])
  {
    assert p[0] in multiset(sorted);
    LastIsGreatest(sorted);
    var last := sorted[|sorted| - 1];
    assert last in multiset(p);
    forall x | x in p
      ensures KeyLe(x, last)
    {
      assert x in multiset(sorted);
    }
  }

  /** The chosen number depends only on which numbers the listing yields. */
  lemma NextSequenceDeterminedByValues(f1: seq<string>, f2: seq<string>)
    requires forall x :: x in Parsed(f1) <==> x in Parsed(f2)
    ensures NextSequence(f1) == NextSequence(f2)
  {
    NextSequenceSpec(f1);
    NextSequenceSpec(f2);
    var n1, n2 := NextSequence(f1), NextSequence(f2);
    if Parsed(f1) != [] {
      assert Parsed(f1)[0] in Parsed(f2);
      StringLeAntisymmetric(SortKey(n1 - 1), SortKey(n2 - 1));
      IntToStringInjective(n1 - 1, n2 - 1);
    }
  }

  /** The order (and repetition) of the directory listing does not change the chosen number. */
  lemma ListingOrderIrrelevant(f1: seq<string>, f2: seq<string>)
    requires forall f :: f in f1 <==> f in f2
    ensures NextSequence(f1) == NextSequence(f2)
  {
    ParsedMembers(f1);
    ParsedMembers(f2);
    forall x
      ensures x in Parsed(f1) <==> x in Parsed(f2)
    {
      if x in Parsed(f1) {
        var i :| 0 <= i < |f1| && SequenceNumber(f1[i]) == Some(x);
        assert f1[i] in f2;
        var j :| 0 <= j < |f2| && f2[j] == f1[i];
      }
      if x in Parsed(f2) {
        var j :| 0 <= j < |f2| && SequenceNumber(f2[j]) == Some(x);
        assert f2[j] in f1;
        var i :| 0 <= i < |f1| && f1[i] == f2[j];
      }
    }
    NextSequenceDeterminedByValues(f1, f2);
  }

  /** A name that yields no number changes nothing, wherever it stands in the listing. */
  lemma UnparsableNameIgnored(files: seq<string>, f: string)
    requires SequenceNumber(f) == None
    ensures NextSequence(files + [f]) == NextSequence(files)
    ensures forall i :: 0 <= i <= |files| ==> NextSequence(files[..i] + [f] + files[i..]) == NextSequence(files)
  {
    forall i | 0 <= i <= |files|
      ensures NextSequence(files[..i] + [f] + files[i..]) == NextSequence(files + [f])
    {
      var h := files[..i] + [f] + files[i..];
      assert files == files[..i] + files[i..];
      forall x
        ensures x in h <==> x in files + [f]
      {
      }
      ListingOrderIrrelevant(h, files + [f]);
    }
    var g := files + [f];
    ParsedMembers(files);
    ParsedMembers(g);
    forall x
      ensures x in Parsed(g) <==> x in Parsed(files)
    {
      if x in Parsed(g) {
        var i :| 0 <= i < |g| && SequenceNumber(g[i]) == Some(x);
        assert i < |files| && g[i] == files[i];
      }
      if x in Parsed(files) {
        var i :| 0 <= i < |files| && SequenceNumber(files[i]) == Some(x);
        assert g[i] == files[i];
      }
    }
    NextSequenceDeterminedByValues(g, files);
  }

  /**
   * The numbers 9 and 10 sort as "10", "9", so a listing holding stem-9.ext and stem-10.ext
   * yields 10 again: the name chosen is one that already exists.
   */
  lemma NineAndTenGiveTen(stem: string, ext: string)
    requires '.' !in stem && |ext| > 0 && ext[0] == '.' && '-' !in ext
    ensures NextSequence([SequenceName(stem, 9, ext), SequenceName(stem, 10, ext)]) == 10
  {
    NineAndTenTexts();
    TwoNamesLexGreater(stem, ext, 10, 9);
    ListingOrderIrrelevant([SequenceName(stem, 10, ext), SequenceName(stem, 9, ext)],
                           [SequenceName(stem, 9, ext), SequenceName(stem, 10, ext)]);
  }

  lemma NineAndTenTexts()
    ensures IntToString(10) == "10" && IntToString(9) == "9"
    ensures StringLess(IntToString(10), IntToString(9))
  {
    assert NatToString(1) == "1";
  }

  /**
   * A listing holding stem-a.ext and stem-b.ext, where the text of b is greater in string
   * order, yields b + 1 whatever the numeric order of a and b.
   */
  lemma TwoNamesLexGreater(stem: string, ext: string, a: nat, b: nat)
    requires '.' !in stem && |ext| > 0 && ext[0] == '.' && '-' !in ext
    requires StringLess(IntToString(a), IntToString(b))
    ensures NextSequence([SequenceName(stem, a, ext), SequenceName(stem, b, ext)]) == b + 1
  {
    var files := [SequenceName(stem, a, ext), SequenceName(stem, b, ext)];
    SequenceNumberRoundTrip(stem, a, ext);
    SequenceNumberRoundTrip(stem, b, ext);
    assert Parsed(files[1..]) == [b];
    assert Parsed(files) == [a, b];
    NextSequenceSpec(files);
    var n := NextSequence(files);
    if n - 1 == a {
      assert b in Parsed(files);
      assert KeyLe(b, a);
      StringLessTotal(IntToString(a), IntToString(b));
    }
  }
}
