/**
 * The row-wise enrichment and the batch runner of the vacancy pipeline (eda.py):
 * the salary-range parser, the "city, state" splitter, the column-name normaliser,
 * the description cleaner and the loop that fills the extracted-skills column in
 * fixed-size batches.
 */
module Eda {
  import opened Wrappers
  import opened Seqs
  import opened Strings

  // ---------------------------------------------------------------------------
  // Column names
  // ---------------------------------------------------------------------------

  /** `[a-z0-9_]` */
  predicate IsColumnChar(c: char)
  {
    IsLower(c) || IsDigit(c) || c == '_'
  }

  /** `name.lower()`, then spaces to `_`, then everything outside `[a-z0-9_]` removed. */
  function NormalizeColumn(name: string): (r: string)
    ensures AllSat(r, IsColumnChar)
  {
    KeepChars(ReplaceChar(Lower(name), ' ', '_'), IsColumnChar)
  }

  /** What one character of a column name turns into, on its own. */
  function ColumnCharImage(c: char): string
  {
    if c == ' ' then "_"
    else if IsColumnChar(LowerChar(c)) then [LowerChar(c)]
    else []
  }

  /** The normaliser works character by character: it distributes over concatenation. */
  lemma NormalizeColumnCharwise(a: string, b: string, c: char)
    ensures NormalizeColumn(a + b) == NormalizeColumn(a) + NormalizeColumn(b)
    ensures NormalizeColumn([c]) == ColumnCharImage(c)
  {
    var la, lb := Lower(a), Lower(b);
    assert Lower(a + b) == la + lb;
    assert ReplaceChar(la + lb, ' ', '_') == ReplaceChar(la, ' ', '_') + ReplaceChar(lb, ' ', '_');
    KeepCharsAppend(ReplaceChar(la, ' ', '_'), ReplaceChar(lb, ' ', '_'), IsColumnChar);
    var rc := ReplaceChar(Lower([c]), ' ', '_');
    assert rc == [if LowerChar(c) == ' ' then '_' else LowerChar(c)];
    assert rc[1..] == [];
  }

  /** Every space, and every underscore, of the name is an underscore of the result, and there are no others. */
  lemma {:induction false} SpacesBecomeUnderscores(name: string)
    ensures Count(NormalizeColumn(name), '_') == Count(name, ' ') + Count(name, '_')
  {
    if name != [] {
      var c, t := name[0], name[1..];
      assert name == [c] + t;
      NormalizeColumnCharwise([c], t, c);
      CountAppend(NormalizeColumn([c]), NormalizeColumn(t), '_');
      SpacesBecomeUnderscores(t);
      assert ColumnCharImage(c) == [] || ColumnCharImage(c)[1..] == [];
    }
  }

  /** Normalising an already normalised name changes nothing. */
  lemma NormalizeColumnIdempotent(name: string)
    ensures NormalizeColumn(NormalizeColumn(name)) == NormalizeColumn(name)
  {
    var r := NormalizeColumn(name);
    LowerOfLower(r);
    assert ReplaceChar(r, ' ', '_') == r;
    KeepCharsAll(r, IsColumnChar);
  }

  // ---------------------------------------------------------------------------
  // Salary
  // ---------------------------------------------------------------------------

  /** Monthly minimum, maximum and average salary. */
  datatype SalaryRange = SalaryRange(minSalary: real, maxSalary: real, avgSalary: real)

  /** `re.findall(r"\d+", s)` */
  function DigitRuns(s: string): seq<string>
  {
    Runs(s, IsDigit)
  }

  function DigitValue(c: char): nat
  {
    if IsDigit(c) then c as int - '0' as int else 0
  }

  /** `int(run)` for a run of decimal digits. */
  function DecimalValue(digits: string): nat
  {
    if digits == [] then 0
    else 10 * DecimalValue(digits[..|digits| - 1]) + DigitValue(digits[|digits| - 1])
  }

  /** A yearly amount in thousands of dollars as a monthly amount: `(k * 1000) / 12`. */
  function Monthly(thousands: nat): real
  {
    (thousands * 1000) as real / 12.0
  }

  /** `extract_salary`: all three amounts, or none when the text does not hold exactly two numbers. */
  function ExtractSalary(salary: string): (r: Option<SalaryRange>)
    ensures r.Some? ==> 0.0 <= r.value.minSalary && 0.0 <= r.value.maxSalary
    ensures r.Some? ==> 2.0 * r.value.avgSalary == r.value.minSalary + r.value.maxSalary
  {
    var runs := DigitRuns(salary);
    if |runs| == 2 then
      var lo := Monthly(DecimalValue(runs[0]));
      var hi := Monthly(DecimalValue(runs[1]));
      Some(SalaryRange(lo, hi, (lo + hi) / 2.0))
    else None
  }

  /**
   * A salary is parsed exactly when the text has two maximal digit runs; the amounts
   * are then the two numbers per month, their midpoint, never negative, and ordered
   * when the numbers are.
   */
  lemma ExtractSalaryCorrect(salary: string)
    ensures ExtractSalary(salary).Some? <==> RunStarts(salary, IsDigit, false) == 2
    ensures ExtractSalary(salary).Some? ==>
              var runs, r := DigitRuns(salary), ExtractSalary(salary).value;
              && |runs| == 2
              && 12.0 * r.minSalary == 1000.0 * DecimalValue(runs[0]) as real
              && 12.0 * r.maxSalary == 1000.0 * DecimalValue(runs[1]) as real
              && 2.0 * r.avgSalary == r.minSalary + r.maxSalary
              && 0.0 <= r.minSalary && 0.0 <= r.maxSalary && 0.0 <= r.avgSalary
              && (DecimalValue(runs[0]) <= DecimalValue(runs[1]) ==> r.minSalary <= r.avgSalary <= r.maxSalary)
  {
    RunsCount(salary, IsDigit);
  }

  /** The three rows of the end-to-end scenario: one range, one single number, no number. */
  lemma ExtractSalaryExamples()
    ensures ExtractSalary("$50K-$70K") == Some(SalaryRange(50000.0 / 12.0, 70000.0 / 12.0, 5000.0))
    ensures ExtractSalary("$80K").None?
    ensures ExtractSalary("invalid").None?
  {
    RangeSalaryExample();
    SingleSalaryRuns();
    NoSalaryRuns();
  }

  lemma RangeSalaryExample()
    ensures ExtractSalary("$50K-$70K") == Some(SalaryRange(50000.0 / 12.0, 70000.0 / 12.0, 5000.0))
  {
    RangeSalaryRuns();
    TwoDigitValue('5', '0');
    TwoDigitValue('7', '0');
    assert Monthly(50) == 50000.0 / 12.0;
    assert Monthly(70) == 70000.0 / 12.0;
  }

  lemma TwoDigitValue(a: char, b: char)
    ensures DecimalValue([a, b]) == 10 * DigitValue(a) + DigitValue(b)
  {
    assert [a][..0] == [];
    assert DecimalValue([a]) == DigitValue(a);
    assert [a, b][..1] == [a];
  }

  lemma NoSalaryRuns()
    ensures DigitRuns("invalid") == []
  {
    var s := "invalid";
    assert s[1..] == "nvalid" && s[2..] == "valid" && s[3..] == "alid";
    assert s[4..] == "lid" && s[5..] == "id" && s[6..] == "d" && s[7..] == "";
    assert Runs(s[6..], IsDigit) == [];
    assert Runs(s[4..], IsDigit) == [];
    assert Runs(s[2..], IsDigit) == [];
  }

  lemma RangeSalaryRuns()
    ensures DigitRuns("$50K-$70K") == ["50", "70"]
  {
    var s := "$50K-$70K";
    assert s[1] == '5' && s[2] == '0' && s[6] == '7' && s[7] == '0';
    TwoRuns(s);
  }

  /** A non-digit, two digits, three non-digits, two digits, a non-digit: two runs. */
  lemma TwoRuns(s: string)
    requires |s| == 9 && IsDigit(s[1]) && IsDigit(s[2]) && IsDigit(s[6]) && IsDigit(s[7])
    requires !IsDigit(s[0]) && !IsDigit(s[3]) && !IsDigit(s[4]) && !IsDigit(s[5]) && !IsDigit(s[8])
    ensures Runs(s, IsDigit) == [[s[1], s[2]], [s[6], s[7]]]
  {
    SkipNonDigits(s, 1);
    TwoDigitRun(s[1..]);
    assert s[1..][2..] == s[3..];
    LastRun(s[3..]);
    assert s[1..][..2] == [s[1], s[2]];
  }

  /** Three non-digits, two digits, a non-digit: one run. */
  lemma LastRun(u: string)
    requires |u| == 6 && IsDigit(u[3]) && IsDigit(u[4])
    requires !IsDigit(u[0]) && !IsDigit(u[1]) && !IsDigit(u[2]) && !IsDigit(u[5])
    ensures Runs(u, IsDigit) == [[u[3], u[4]]]
  {
    SkipNonDigits(u, 3);
    TwoDigitRun(u[3..]);
    assert u[3..][2..] == u[5..];
    SkipNonDigits(u[5..], 1);
    assert u[5..][1..] == [];
    assert u[3..][..2] == [u[3], u[4]];
  }

  /** Characters that are not digits in front of `s[k..]` add no run. */
  lemma {:induction false} SkipNonDigits(s: string, k: nat)
    requires k <= |s| && forall i :: 0 <= i < k ==> !IsDigit(s[i])
    ensures Runs(s, IsDigit) == Runs(s[k..], IsDigit)
  {
    if k > 0 {
      SkipNonDigits(s[1..], k - 1);
      assert s[1..][k - 1..] == s[k..];
    }
  }

  /** Two digits and then a non-digit: the first run is those two digits. */
  lemma TwoDigitRun(s: string)
    requires |s| >= 3 && IsDigit(s[0]) && IsDigit(s[1]) && !IsDigit(s[2])
    ensures Runs(s, IsDigit) == [s[..2]] + Runs(s[2..], IsDigit)
  {
    assert PrefixLen(s[2..], IsDigit) == 0;
    assert s[1..][1..] == s[2..];
    assert PrefixLen(s[1..], IsDigit) == 1;
  }

  lemma SingleSalaryRuns()
    ensures DigitRuns("$80K") == ["80"]
  {
    assert PrefixLen("K", IsDigit) == 0;
    assert PrefixLen("0K", IsDigit) == 1;
    assert PrefixLen("80K", IsDigit) == 2;
    assert "80K"[..2] == "80" && "80K"[2..] == "K";
    assert Runs("K", IsDigit) == [];
    assert "$80K"[1..] == "80K";
  }

  // ---------------------------------------------------------------------------
  // Location
  // ---------------------------------------------------------------------------

  /** `IndexError: list index out of range` from `x.split(",")[1]`. */
  datatype LocationError = IndexError

  /** `x.split(",")[0]`: the text before the first comma, or all of it. */
  function City(location: string): (city: string)
    ensures ',' !in city
    ensures city <= location
    ensures |city| == |location| || location[|city|] == ','
  {
    var parts := Split(location, ',');
    JoinSplit(location, ',');
    assert |parts| > 1 ==> location == parts[0] + [','] + Join(parts[1..], [',']);
    parts[0]
  }

  /**
   * `x.split(",")[1]`: the text between the first and the second comma (or the end);
   * without a comma the lookup raises.
   */
  function State(location: string): (state: Result<string, LocationError>)
    ensures state.Ok? <==> ',' in location
    ensures state.Ok? ==>
              && |City(location)| < |location|
              && var rest := location[|City(location)| + 1..];
              && ',' !in state.value
              && state.value <= rest
              && (|state.value| == |rest| || rest[|state.value|] == ',')
  {
    var parts := Split(location, ',');
    SplitCount(location, ',');
    CountPositive(location, ',');
    JoinSplit(location, ',');
    if |parts| >= 2 then
      var tail := Join(parts[1..], [',']);
      assert location == parts[0] + [','] + tail;
      assert location[|parts[0]| + 1..] == tail;
      assert |parts[1..]| > 1 ==> tail == parts[1] + [','] + Join(parts[2..], [',']) by {
        assert parts[1..][1..] == parts[2..];
      }
      Ok(parts[1])
    else
      Err(IndexError)
  }

  // ---------------------------------------------------------------------------
  // Description cleaning
  // ---------------------------------------------------------------------------

  /** `[a-z\s]` */
  predicate IsLetterOrSpace(c: char)
  {
    IsLower(c) || IsSpace(c)
  }

  /** `a` to `z` or the blank. */
  predicate IsLetterOrBlank(c: char)
  {
    IsLower(c) || c == ' '
  }

  /** `s.split()` */
  function Words(s: string): seq<string>
  {
    Runs(s, NotSpace)
  }

  /** The words of `text_clean` before the final join. */
  function KeptWords(text: string, stopWords: set<string>): (ws: seq<string>)
    ensures forall i :: 0 <= i < |ws| ==> ws[i] !in stopWords
  {
    var lowered := Lower(text);
    var letters := KeepChars(lowered, IsLetterOrSpace);
    var words := Words(letters);
    Without(words, stopWords)
  }

  /** `text_clean`, with the stopword list as a parameter. */
  function TextClean(text: string, stopWords: set<string>): (out: string)
    ensures IsCleanText(out)
  {
    CleanedWords(text, stopWords);
    JoinWordsClean(KeptWords(text, stopWords));
    Join(KeptWords(text, stopWords), " ")
  }

  /** A non-empty run of `a` to `z`. */
  predicate IsWord(w: string)
  {
    |w| > 0 && AllSat(w, IsLower)
  }

  /** Cleaned text: only `a` to `z` and blanks, no blank at either end, never two blanks in a row. */
  predicate IsCleanText(s: string)
  {
    && AllSat(s, IsLetterOrBlank)
    && (s == [] || (s[0] != ' ' && s[|s| - 1] != ' '))
    && forall i :: 0 <= i < |s| - 1 ==> s[i] != ' ' || s[i + 1] != ' '
  }

  lemma {:induction false} JoinWordsClean(ws: seq<string>)
    requires forall i :: 0 <= i < |ws| ==> IsWord(ws[i])
    ensures IsCleanText(Join(ws, " "))
  {
    if |ws| > 1 {
      JoinWordsClean(ws[1..]);
      var w, t := ws[0], Join(ws[1..], " ");
      var s := Join(ws, " ");
      assert s == w + " " + t;
      assert t != [] by {
        assert |ws[1..]| == 1 ==> t == ws[1];
        assert |ws[1..]| > 1 ==> t == ws[1] + " " + Join(ws[2..], " ") by {
          assert ws[1..][1..] == ws[2..];
        }
      }
      forall i | 0 <= i < |s| - 1 ensures s[i] != ' ' || s[i + 1] != ' ' {
        if i < |w| - 1 {
          assert s[i] == w[i];
        } else if i == |w| - 1 {
          assert s[i] == w[i];
        } else if i == |w| {
          assert s[i + 1] == t[0];
        } else {
          assert s[i] == t[i - |w| - 1] && s[i + 1] == t[i - |w|];
        }
      }
    }
  }

  /** The words `text_clean` keeps: real words and no stopword. */
  lemma CleanedWords(text: string, stopWords: set<string>)
    ensures forall i :: 0 <= i < |KeptWords(text, stopWords)| ==>
              IsWord(KeptWords(text, stopWords)[i]) && KeptWords(text, stopWords)[i] !in stopWords
  {
    var letters := KeepChars(Lower(text), IsLetterOrSpace);
    var words := Words(letters);
    var kept := Without(words, stopWords);
    RunsWithin(letters, NotSpace, IsLetterOrSpace);
    forall i | 0 <= i < |kept| ensures IsWord(kept[i]) {
      CountPositive(kept, kept[i]);
      CountPositive(words, kept[i]);
      var j :| 0 <= j < |words| && words[j] == kept[i];
    }
  }

  /**
   * The cleaned description holds only `a` to `z` and single blanks, starts and
   * ends with a letter, and splits back into the kept words, none of them a stopword.
   */
  lemma TextCleanShape(text: string, stopWords: set<string>)
    ensures IsCleanText(TextClean(text, stopWords))
    ensures Words(TextClean(text, stopWords)) == KeptWords(text, stopWords)
    ensures forall w :: w in Words(TextClean(text, stopWords)) ==> w !in stopWords
  {
    var kept := KeptWords(text, stopWords);
    CleanedWords(text, stopWords);
    JoinWordsClean(kept);
    RunsOfJoin(kept, ' ', NotSpace);
  }

  /** Cleaning a cleaned description changes nothing. */
  lemma TextCleanIdempotent(text: string, stopWords: set<string>)
    ensures TextClean(TextClean(text, stopWords), stopWords) == TextClean(text, stopWords)
  {
    var out := TextClean(text, stopWords);
    var kept := KeptWords(text, stopWords);
    TextCleanShape(text, stopWords);
    CleanedWords(text, stopWords);
    LowerOfLower(out);
    KeepCharsAll(out, IsLetterOrSpace);
    WithoutNothing(kept, stopWords);
  }

  lemma {:induction false} WithoutNothing(xs: seq<string>, drop: set<string>)
    requires forall i :: 0 <= i < |xs| ==> xs[i] !in drop
    ensures Without(xs, drop) == xs
  {
    if xs != [] {
      WithoutNothing(xs[1..], drop);
    }
  }

  // ---------------------------------------------------------------------------
  // Batch runner
  // ---------------------------------------------------------------------------

  const BATCH_SIZE: nat := 500

  /** Python's `range(start, stop, step)` for a positive step. */
  function Range(start: nat, stop: nat, step: nat): seq<nat>
    requires step > 0
    decreases if start < stop then stop - start else 0
  {
    if start >= stop then [] else [start] + Range(start + step, stop, step)
  }

  /** Element `k` of the range is `start + k * step`, and those below `stop` are exactly its elements. */
  lemma {:induction false} RangeIndex(start: nat, stop: nat, step: nat)
    requires step > 0
    ensures forall k: nat :: k < |Range(start, stop, step)| ==> Range(start, stop, step)[k] == start + k * step
    ensures forall k: nat :: k < |Range(start, stop, step)| <==> start + k * step < stop
    decreases if start < stop then stop - start else 0
  {
    var r := Range(start, stop, step);
    if start < stop {
      RangeIndex(start + step, stop, step);
      var t := Range(start + step, stop, step);
      forall k: nat ensures (k < |r| ==> r[k] == start + k * step) && (k < |r| <==> start + k * step < stop) {
        if k > 0 {
          assert start + k * step == (start + step) + (k - 1) * step;
          assert k < |r| ==> r[k] == t[k - 1];
        }
      }
    } else {
      forall k: nat ensures start + k * step >= stop {
        assert k * step >= 0;
      }
    }
  }

  /** Row label `row` is written by the batch `df.loc[start:start + size - 1]` of a frame of `n` rows. */
  predicate InBatch(n: nat, size: nat, start: nat, row: nat)
  {
    start <= row <= start + size - 1 && row < n
  }

  lemma {:induction false} MulMonotone(a: nat, b: nat, c: nat)
    requires a <= b
    ensures a * c <= b * c
    decreases b - a
  {
    if a < b {
      MulMonotone(a + 1, b, c);
      assert (a + 1) * c == a * c + c;
    }
  }

  lemma DivBetween(row: nat, size: nat, k: nat)
    requires size > 0
    requires k * size <= row < k * size + size
    ensures row / size == k
  {
    var q, m := row / size, row % size;
    assert row == q * size + m && 0 <= m < size;
    assert (q + 1) * size == q * size + size;
    assert (k + 1) * size == k * size + size;
    if q < k {
      MulMonotone(q + 1, k, size);
    } else if q > k {
      MulMonotone(k + 1, q, size);
    }
  }

  /**
   * The batches of `for i in range(0, n, size)` split the rows: a row in batch `k`
   * exists and has `k == row / size`, and every row is in batch `row / size`.
   * So every row is written by exactly one batch.
   */
  lemma BatchesPartitionRows(n: nat, size: nat)
    requires size > 0
    ensures var starts := Range(0, n, size);
            forall k: nat, row: nat :: k < |starts| && InBatch(n, size, starts[k], row) ==> row < n && k == row / size
    ensures var starts := Range(0, n, size);
            forall row: nat :: row < n ==> row / size < |starts| && InBatch(n, size, starts[row / size], row)
  {
    RangeIndex(0, n, size);
    var starts := Range(0, n, size);
    forall k: nat, row: nat | k < |starts| && InBatch(n, size, starts[k], row) ensures row < n && k == row / size {
      assert starts[k] == k * size;
      DivBetween(row, size, k);
    }
    forall row: nat | row < n ensures row / size < |starts| && InBatch(n, size, starts[row / size], row) {
      var q := row / size;
      assert q * size <= row < q * size + size by {
        assert row == q * size + row % size;
      }
      assert q < |starts| && starts[q] == q * size;
    }
  }

  /** With batches of `BATCH_SIZE` rows, `n` rows take ceil(n / 500) batches, and as many checkpoints. */
  lemma BatchCount(n: nat)
    ensures |Range(0, n, BATCH_SIZE)| == (n + BATCH_SIZE - 1) / BATCH_SIZE
  {
    RangeIndex(0, n, BATCH_SIZE);
    var m, q := |Range(0, n, BATCH_SIZE)|, (n + BATCH_SIZE - 1) / BATCH_SIZE;
    assert n + BATCH_SIZE - 1 == q * BATCH_SIZE + (n + BATCH_SIZE - 1) % BATCH_SIZE;
    assert !(q < m) by {
      assert q * BATCH_SIZE >= n;
    }
    if q > 0 {
      assert (q - 1) * BATCH_SIZE < n;
      assert q - 1 < m;
    }
  }

  /** Two different batches never write the same row. */
  lemma BatchesDisjoint(n: nat, size: nat, k1: nat, k2: nat, row: nat)
    requires size > 0
    requires k1 < |Range(0, n, size)| && k2 < |Range(0, n, size)| && k1 != k2
    ensures !(InBatch(n, size, Range(0, n, size)[k1], row) && InBatch(n, size, Range(0, n, size)[k2], row))
  {
    BatchesPartitionRows(n, size);
  }

  /** The skills column once rows `0 .. done-1` hold their extractor reply and the others are untouched. */
  function Processed(column: seq<Option<string>>, clean: seq<string>, extractSkills: string -> string, done: nat): (p: seq<Option<string>>)
    requires |column| == |clean|
    ensures |p| == |column|
    ensures done == 0 ==> p == column
    ensures done >= |column| ==> forall r :: 0 <= r < |p| ==> p[r] == Some(extractSkills(clean[r]))
  {
    seq(|column|, r requires 0 <= r < |column| => if r < done then Some(extractSkills(clean[r])) else column[r])
  }

  /**
   * The batch loop: for each `i` in `range(0, n, batchSize)`, rows `i .. i + batchSize - 1`
   * (those that exist) get `extract_skills` of their cleaned description. `checkpoints`
   * records the column each `to_csv` after a batch would write.
   */
  method ExtractSkillsInBatches(clean: seq<string>, extracted: array<Option<string>>, batchSize: nat,
                                extractSkills: string -> string)
    returns (ghost checkpoints: seq<seq<Option<string>>>)
    requires batchSize > 0
    requires extracted.Length == |clean|
    modifies extracted
    ensures extracted[..] == Processed(old(extracted[..]), clean, extractSkills, |clean|)
    ensures |checkpoints| == |Range(0, |clean|, batchSize)|
    ensures forall k :: 0 <= k < |checkpoints| ==>
              checkpoints[k] == Processed(old(extracted[..]), clean, extractSkills, Min((k + 1) * batchSize, |clean|))
  {
    ghost var original := extracted[..];
    var n := extracted.Length;
    RangeIndex(0, n, batchSize);
    checkpoints := [];
    var i := 0;
    ghost var k: nat := 0;
    while i < n
      invariant i == k * batchSize
      invariant k <= |Range(0, n, batchSize)|
      invariant extracted[..] == Processed(original, clean, extractSkills, Min(i, n))
      invariant |checkpoints| == k
      invariant forall j :: 0 <= j < k ==>
                  checkpoints[j] == Processed(original, clean, extractSkills, Min((j + 1) * batchSize, n))
    {
      var row := i;
      while row <= i + batchSize - 1 && row < n
        invariant i <= row <= Min(i + batchSize, n)
        invariant extracted[..] == Processed(original, clean, extractSkills, row)
      {
        extracted[row] := Some(extractSkills(clean[row]));
        row := row + 1;
      }
      assert row == Min((k + 1) * batchSize, n);
      checkpoints := checkpoints + [extracted[..]];
      i := i + batchSize;
      k := k + 1;
    }
  }
}
