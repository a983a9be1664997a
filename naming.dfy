/**
 * How `move_file` picks a free name in the target directory: the file's
 * own name first, then `<stem>_1<ext>`, `<stem>_2<ext>`, ... where stem and
 * extension come from `os.path.splitext` of the name (extension case kept).
 */
module Naming {
  import opened Strings

  /** The name `move_file` tries after `k` failed attempts. */
  function Candidate(fileName: string, k: nat): (name: string)
  {
    if k == 0 then fileName
    else
      var parts := SplitExt(fileName);
      parts.0 + "_" + Dec(k) + parts.1
  }

  /** Different attempts try different names. */
  lemma CandidateInjective(fileName: string, j: nat, k: nat)
    requires Candidate(fileName, j) == Candidate(fileName, k)
    ensures j == k
  {
    var parts := SplitExt(fileName);
    var stem, ext := parts.0, parts.1;
    if j > 0 && k > 0 {
      var s := Candidate(fileName, j);
      assert |Dec(j)| == |Dec(k)|;
      assert s[|stem| + 1..|s| - |ext|] == Dec(j);
      assert Candidate(fileName, k)[|stem| + 1..|s| - |ext|] == Dec(k);
      DecInjective(j, k);
    }
  }

  /** Two suffixes of `s` that each hold exactly one dot, at their start, are equal. */
  lemma DotSuffixUnique(s: string, a: nat, b: nat)
    requires a < |s| && b < |s|
    requires s[a] == '.' && s[b] == '.'
    requires forall p :: a < p < |s| ==> s[p] != '.'
    requires forall p :: b < p < |s| ==> s[p] != '.'
    ensures a == b
  {
  }

  /**
   * A renamed file keeps its extension, so a renamed file falls into the
   * same category as the original name would.
   */
  lemma CandidateKeepsExtension(fileName: string, k: nat)
    ensures SplitExt(Candidate(fileName, k)).1 == SplitExt(fileName).1
  {
    if k > 0 {
      var parts := SplitExt(fileName);
      var head := parts.0 + "_" + Dec(k);
      assert Candidate(fileName, k) == head + parts.1;
      HeadHasNoDotAfter(parts.0, Dec(k));
      if parts.1 != [] {
        KeepsDottedExtension(head, parts.1, |parts.0|);
      } else {
        KeepsNoExtension(parts.0, head);
      }
    }
  }

  /** After the stem, `_<digits>` holds no dot. */
  lemma HeadHasNoDotAfter(stem: string, digits: string)
    requires AllDigits(digits)
    ensures var head := stem + "_" + digits;
            head[|stem|] == '_' && forall p :: |stem| <= p < |head| ==> head[p] != '.'
  {
    var head := stem + "_" + digits;
    forall p | |stem| < p < |head| ensures head[p] != '.' {
      assert head[p] == digits[p - |stem| - 1];
      assert IsDigit(digits[p - |stem| - 1]);
    }
  }

  lemma KeepsDottedExtension(head: string, ext: string, at: nat)
    requires at < |head| && head[at] != '.'
    requires ext != [] && ext[0] == '.' && forall q :: 1 <= q < |ext| ==> ext[q] != '.'
    ensures SplitExt(head + ext).1 == ext
  {
    var c := head + ext;
    var r := SplitExt(c);
    assert c[|head|] == '.' && c[at] == head[at];
    assert r.1 != [];
    var a := |c| - |r.1|;
    var b := |head|;
    assert c[a] == r.1[0];
    forall p | a < p < |c| ensures c[p] != '.' { assert c[p] == r.1[p - a]; }
    forall p | b < p < |c| ensures c[p] != '.' { assert c[p] == ext[p - b]; }
    DotSuffixUnique(c, a, b);
    assert r.1 == c[a..];
  }

  lemma KeepsNoExtension(stem: string, head: string)
    requires SplitExt(stem).1 == []
    requires |stem| <= |head| && head[..|stem|] == stem
    requires forall p :: |stem| <= p < |head| ==> head[p] != '.'
    ensures SplitExt(head).1 == []
  {
    forall i, j | 0 <= i < j < |head| && head[i] != '.' ensures head[j] != '.' {
      if j < |stem| {
        assert head[i] == stem[i] && head[j] == stem[j];
      }
    }
  }

  /**
   * The `while os.path.exists(target_path)` loop of `move_file`, against the
   * set of names already present in the target directory. The result is the
   * first candidate that is free: the file name itself when it is free,
   * otherwise `<stem>_<k><ext>` for the least `k >= 1` not taken.
   */
  method ChooseName(taken: set<string>, fileName: string) returns (name: string, ghost k: nat)
    ensures name !in taken
    ensures fileName !in taken ==> name == fileName
    ensures name == Candidate(fileName, k)
    ensures forall j :: 0 <= j < k ==> Candidate(fileName, j) in taken
  {
    name := fileName;
    var counter := 1;
    ghost var tried: set<string> := {};
    while name in taken
      invariant counter >= 1
      invariant name == Candidate(fileName, counter - 1)
      invariant tried == set j | 0 <= j < counter - 1 :: Candidate(fileName, j)
      invariant |tried| == counter - 1
      invariant tried <= taken
      invariant forall j :: 0 <= j < counter - 1 ==> Candidate(fileName, j) in taken
      decreases |taken| - |tried|
    {
      forall j | 0 <= j < counter - 1
        ensures Candidate(fileName, j) != name
      {
        if Candidate(fileName, j) == name { CandidateInjective(fileName, j, counter - 1); }
      }
      assert name !in tried;
      assert tried + {name} <= taken;
      ghost var tried' := tried + {name};
      assert tried' == set j | 0 <= j < counter :: Candidate(fileName, j);
      assert |tried'| <= |taken| by { SubsetCardinality(tried', taken); }
      tried := tried';
      name := Candidate(fileName, counter);
      counter := counter + 1;
    }
    k := counter - 1;
  }

  lemma SubsetCardinality(a: set<string>, b: set<string>)
    requires a <= b
    ensures |a| <= |b|
  {
    assert b == a + (b - a);
  }

  /** Two files named "a.txt" moved into one directory end up as "a.txt" and "a_1.txt". */
  lemma SecondCopyGetsSuffix()
    ensures Candidate("a.txt", 1) == "a_1.txt"
  {
    assert "a.txt"[..4] == "a.tx" && "a.tx"[..3] == "a.t" && "a.t"[..2] == "a.";
    assert LastDot("a.txt") == 1;
    assert "a.txt"[..1] == "a";
    assert "a"[0] != '.';
    assert SplitExt("a.txt") == ("a", ".txt");
  }
}
