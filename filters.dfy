/**
 * The user's category table of the custom sort method, as
 * `get_custom_filters` builds it: an insertion-ordered dictionary from a
 * category name to a set of lower-cased extensions.
 */
module Filters {
  import opened Wrappers
  import opened Strings

  datatype Filter = Filter(category: string, extensions: set<string>)

  /** A Python dict in insertion order: one entry per key. */
  type Filters = seq<Filter>

  predicate DistinctKeys(f: Filters)
  {
    forall i, j :: 0 <= i < j < |f| ==> f[i].category != f[j].category
  }

  /** Position of the entry for `key`, or `|f|` when there is none. */
  function Find(f: Filters, key: string): (r: nat)
    ensures r <= |f|
    ensures r < |f| ==> f[r].category == key
    ensures forall j :: 0 <= j < r ==> f[j].category != key
  {
    if f == [] then 0
    else if f[0].category == key then 0
    else 1 + Find(f[1..], key)
  }

  /**
   * Position of the first entry, in insertion order, whose extension set
   * holds `ext`, or `|f|` when no entry does (the `for ... in items()` loop
   * of `process_file_by_custom`).
   */
  function FirstMatch(f: Filters, ext: string): (r: nat)
    ensures r <= |f|
    ensures r < |f| ==> ext in f[r].extensions
    ensures forall j :: 0 <= j < r ==> ext !in f[j].extensions
  {
    if f == [] then 0
    else if ext in f[0].extensions then 0
    else 1 + FirstMatch(f[1..], ext)
  }

  /**
   * `d[key] = value` on a Python dict: a key already present keeps its
   * place and gets the new value; a new key goes last.
   */
  function Assign(f: Filters, key: string, value: set<string>): (r: Filters)
    ensures Find(r, key) < |r| && r[Find(r, key)] == Filter(key, value)
    ensures forall i :: 0 <= i < |f| && f[i].category != key ==> i < |r| && r[i] == f[i]
    ensures forall x :: x in r ==> x in f || x == Filter(key, value)
    ensures Find(f, key) < |f| ==> |r| == |f| && Find(r, key) == Find(f, key)
    ensures Find(f, key) == |f| ==> r == f + [Filter(key, value)]
    ensures |f| <= |r| && forall i :: 0 <= i < |f| ==> r[i].category == f[i].category
  {
    var i := Find(f, key);
    if i < |f| then
      var r := f[i := Filter(key, value)];
      assert Find(r, key) == i by { FindUnique(r, key, i); }
      r
    else
      var r := f + [Filter(key, value)];
      assert Find(r, key) == |f| by { FindUnique(r, key, |f|); }
      r
  }

  lemma FindUnique(f: Filters, key: string, i: nat)
    requires i < |f| && f[i].category == key
    requires forall j :: 0 <= j < i ==> f[j].category != key
    ensures Find(f, key) == i
  {
  }

  /** Assigning to a dict keeps its keys distinct. */
  lemma AssignKeepsKeysDistinct(f: Filters, key: string, value: set<string>)
    requires DistinctKeys(f)
    ensures DistinctKeys(Assign(f, key, value))
  {
    var r := Assign(f, key, value);
    if Find(f, key) == |f| {
      forall i, j | 0 <= i < j < |r| ensures r[i].category != r[j].category {
        if j == |f| { assert f[i].category != key; }
      }
    }
  }

  /**
   * The extension set typed for one category: the text is split on ',',
   * empty pieces are dropped, the others are lower-cased but not trimmed.
   */
  function ParseExtensions(text: string): (r: set<string>)
    ensures [] !in r
    ensures forall e :: e in r ==> IsLower(e)
    ensures forall e :: e in r <==> exists p :: p in Split(text, ',') && p != [] && Lower(p) == e
  {
    var r := set p | p in Split(text, ',') && p != [] :: Lower(p);
    assert forall p :: p in Split(text, ',') && p != [] ==> Lower(p) in r;
    r
  }

  /** An entry as `get_custom_filters` stores it. */
  predicate GoodEntry(x: Filter)
  {
    && x.category != []
    && Strip(x.category) == x.category
    && forall e :: e in x.extensions ==> e != [] && IsLower(e)
  }

  /** What every table `get_custom_filters` returns satisfies. */
  predicate WellFormed(f: Filters)
  {
    DistinctKeys(f) && forall x :: x in f ==> GoodEntry(x)
  }

  /**
   * The answers `get_custom_filters` reads from `lines` (alternately a
   * category name and its extension list), added to `acc`. Input ends at
   * the first category name that is empty after stripping; running out of
   * lines before that is an error (Python's `input()` raises EOFError).
   * A category already in the table keeps its position.
   */
  function ReadFilters(lines: seq<string>, acc: Filters): (r: Result<Filters>)
    ensures r.Ok? ==> |acc| <= |r.value| && forall i :: 0 <= i < |acc| ==> r.value[i].category == acc[i].category
    decreases |lines|
  {
    if lines == [] then Err(EndOfInput)
    else
      var category := Strip(lines[0]);
      if category == [] then Ok(acc)
      else if |lines| == 1 then Err(EndOfInput)
      else ReadFilters(lines[2..], Assign(acc, category, ParseExtensions(Strip(lines[1]))))
  }

  /** The answer to the `j`-th category prompt, line `2 * j`, is there and blank. */
  predicate BlankPrompt(lines: seq<string>, j: int)
  {
    0 <= 2 * j < |lines| && Strip(lines[2 * j]) == []
  }

  /** Dropping the first question and answer renumbers the prompts. */
  lemma BlankPromptShift(lines: seq<string>, j: nat)
    requires |lines| >= 2
    ensures BlankPrompt(lines[2..], j) <==> BlankPrompt(lines, j + 1)
  {
    if 0 <= 2 * j < |lines| - 2 {
      assert lines[2..][2 * j] == lines[2 * (j + 1)];
    }
  }

  /** Whether `ReadFilters` reaches a blank category name before the lines run out. */
  predicate Answered(lines: seq<string>)
    decreases |lines|
  {
    lines != [] && (Strip(lines[0]) == [] || (|lines| >= 2 && Answered(lines[2..])))
  }

  /** Whether the table reading ends well does not depend on the table read so far. */
  lemma {:induction false} ReadFiltersOkAnswered(lines: seq<string>, acc: Filters)
    ensures ReadFilters(lines, acc).Ok? <==> Answered(lines)
    decreases |lines|
  {
    if lines != [] && Strip(lines[0]) != [] && |lines| >= 2 {
      ReadFiltersOkAnswered(lines[2..], Assign(acc, Strip(lines[0]), ParseExtensions(Strip(lines[1]))));
    }
  }

  /** Past a non-blank first category name, the blank prompts are those of the rest. */
  lemma BlankPromptsShift(lines: seq<string>)
    requires |lines| >= 2 && Strip(lines[0]) != []
    ensures (exists j :: BlankPrompt(lines, j)) <==> (exists j :: BlankPrompt(lines[2..], j))
  {
    if j :| BlankPrompt(lines[2..], j) {
      BlankPromptShift(lines, j);
    }
    if j :| BlankPrompt(lines, j) {
      assert j != 0;
      BlankPromptShift(lines, j - 1);
    }
  }

  /** A blank category name is reached exactly when some category prompt gets a blank answer. */
  lemma {:induction false} AnsweredIff(lines: seq<string>)
    ensures Answered(lines) <==> exists j :: BlankPrompt(lines, j)
    decreases |lines|
  {
    if lines == [] {
    } else if Strip(lines[0]) == [] {
      assert BlankPrompt(lines, 0);
    } else if |lines| == 1 {
      NoBlankPrompt(lines);
    } else {
      AnsweredIff(lines[2..]);
      BlankPromptsShift(lines);
    }
  }

  /** A single non-blank category name has no blank prompt. */
  lemma NoBlankPrompt(lines: seq<string>)
    requires |lines| == 1 && Strip(lines[0]) != []
    ensures !exists j :: BlankPrompt(lines, j)
  {
    forall j ensures !BlankPrompt(lines, j) {
      if j != 0 {
        assert 2 * j < 0 || 2 * j >= 2;
      }
    }
  }

  /**
   * The answers are read to the end, rather than running out, exactly when
   * some category prompt gets a blank answer.
   */
  lemma ReadFiltersOkIff(lines: seq<string>, acc: Filters)
    ensures ReadFilters(lines, acc).Ok? <==> exists j :: BlankPrompt(lines, j)
  {
    ReadFiltersOkAnswered(lines, acc);
    AnsweredIff(lines);
  }

  /** A string with no whitespace at either end is its own strip. */
  lemma StripOfStripped(s: string)
    requires s == [] || (!IsSpace(s[0]) && !IsSpace(s[|s| - 1]))
    ensures Strip(s) == s
  {
  }

  /** One round of the loop keeps the table well formed. */
  lemma ReadStepWellFormed(acc: Filters, line: string, text: string)
    requires WellFormed(acc)
    requires Strip(line) != []
    ensures WellFormed(Assign(acc, Strip(line), ParseExtensions(text)))
  {
    var key, value := Strip(line), ParseExtensions(text);
    StripOfStripped(key);
    assert GoodEntry(Filter(key, value));
    AssignKeepsKeysDistinct(acc, key, value);
    var r := Assign(acc, key, value);
    forall x | x in r ensures GoodEntry(x) {
      assert x in acc || x == Filter(key, value);
    }
  }

  /** Every table read from the console is well formed. */
  lemma {:induction false} ReadFiltersWellFormed(lines: seq<string>, acc: Filters)
    requires WellFormed(acc)
    ensures ReadFilters(lines, acc).Ok? ==> WellFormed(ReadFilters(lines, acc).value)
    decreases |lines|
  {
    if |lines| >= 2 && Strip(lines[0]) != [] {
      ReadStepWellFormed(acc, lines[0], Strip(lines[1]));
      ReadFiltersWellFormed(lines[2..], Assign(acc, Strip(lines[0]), ParseExtensions(Strip(lines[1]))));
    }
  }

  /**
   * Nothing after the terminating empty category name is read: extra lines
   * after a completed table do not change it.
   */
  lemma {:induction false} ReadFiltersStopsAtBlank(lines: seq<string>, more: seq<string>, acc: Filters)
    requires ReadFilters(lines, acc).Ok?
    ensures ReadFilters(lines + more, acc) == ReadFilters(lines, acc)
    decreases |lines|
  {
    var all := lines + more;
    assert lines != [];
    assert all[0] == lines[0];
    var category := Strip(lines[0]);
    if category != [] {
      assert |lines| >= 2;
      assert all[1] == lines[1];
      DropOfAppend(lines, more, 2);
      var next := Assign(acc, category, ParseExtensions(Strip(lines[1])));
      ReadFiltersStep(lines, acc);
      ReadFiltersStep(all, acc);
      ReadFiltersStopsAtBlank(lines[2..], more, next);
    } else {
      assert ReadFilters(lines, acc) == Ok(acc);
      assert ReadFilters(all, acc) == Ok(acc);
    }
  }

  lemma DropOfAppend(a: seq<string>, b: seq<string>, k: nat)
    requires k <= |a|
    ensures (a + b)[k..] == a[k..] + b
  {
  }

  /** One category and its extension list, read from the head of the input. */
  lemma ReadFiltersStep(lines: seq<string>, acc: Filters)
    requires |lines| >= 2 && Strip(lines[0]) != []
    ensures ReadFilters(lines, acc)
         == ReadFilters(lines[2..], Assign(acc, Strip(lines[0]), ParseExtensions(Strip(lines[1]))))
  {
  }

  /**
   * Entering a category name a second time replaces the set given the first
   * time, and the category keeps the position of its first entry.
   */
  lemma ReenteredCategoryReplaces(f: Filters, key: string, first: set<string>, second: set<string>)
    ensures var g := Assign(f, key, first);
            var h := Assign(g, key, second);
            && |h| == |g|
            && Find(h, key) == Find(g, key)
            && h[Find(h, key)] == Filter(key, second)
  {
  }

  /**
   * `get_custom_filters`: reads category names and extension lists until a
   * category name is blank, storing each list under its category.
   */
  method GetCustomFilters(lines: seq<string>) returns (r: Result<Filters>)
    ensures r == ReadFilters(lines, [])
    ensures r.Ok? ==> WellFormed(r.value)
  {
    var filters: Filters := [];
    var i := 0;
    while true
      invariant 0 <= i <= |lines|
      invariant WellFormed(filters)
      invariant ReadFilters(lines[i..], filters) == ReadFilters(lines, [])
      decreases |lines| - i
    {
      if i == |lines| {
        return Err(EndOfInput);
      }
      var category := Strip(lines[i]);
      if category == [] {
        return Ok(filters);
      }
      if i + 1 == |lines| {
        return Err(EndOfInput);
      }
      var extensions := Strip(lines[i + 1]);
      ReadStepWellFormed(filters, lines[i], extensions);
      assert lines[i..][2..] == lines[i + 2..];
      filters := Assign(filters, category, ParseExtensions(extensions));
      i := i + 2;
    }
  }
}
