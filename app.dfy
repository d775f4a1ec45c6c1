/**
 * The data behind the dashboard (app.py): the per-city skill ranking computed by the
 * top-skills callback, the table of vacancies by company founding year, and the
 * top-ten industry table with the "-1" placeholder treated as missing.
 */
module Dashboard {
  import opened Wrappers
  import opened Seqs
  import opened Strings
  import opened Counter
  import SkillsAnalysis

  // ---------------------------------------------------------------------------
  // Data
  // ---------------------------------------------------------------------------

  /** A stored `extracted_skills` value: text still to be parsed, or an already parsed list. */
  datatype Cell = Text(text: string) | Items(items: seq<string>)

  /** The two columns of a processed vacancy the skill chart reads; `None` is a missing value. */
  datatype Vacancy = Vacancy(city: Option<string>, extractedSkills: Option<Cell>)

  /** A bar chart of `(skill, count)` rows, or an empty chart that only carries a title. */
  datatype Figure = Bar(title: string, table: seq<(string, nat)>) | Blank(title: string)

  /** The dropdown value that selects every city. */
  const ALL_CITIES: string := "all"

  const ALL_CITIES_TITLE: string := "Top-10 In-Demand Skills (All Cities)"
  const NO_DATA_TITLE: string := "No data available for "
  const NO_SKILLS_TITLE: string := "No skills found for "
  const CITY_TITLE: string := "Top-10 In-Demand Skills in "

  /** The callback's own `generic_skills`: lower-case, without the bracketed variant. */
  const CITY_GENERIC_SKILLS: set<string> :=
    {"data analysis", "analytics", "business intelligence", "data science"}

  /** `most_common(10)` of the callback, and `nlargest(10)` of the industry table. */
  const CITY_TOP_N: nat := 10
  const INDUSTRY_TOP_N: nat := 10

  /** The industry value that stands for "unknown". */
  const MISSING_INDUSTRY: string := "-1"

  // ---------------------------------------------------------------------------
  // Tables ordered by count
  // ---------------------------------------------------------------------------

  /** Rows by non-increasing count. */
  predicate NonIncreasing(t: seq<(string, nat)>)
  {
    forall i, j :: 0 <= i < j < |t| ==> t[i].1 >= t[j].1
  }

  /** Put `x` in front of the first row whose count is not larger: rows met earlier stay ahead of ties. */
  function InsertByCount(x: (string, nat), t: seq<(string, nat)>): (r: seq<(string, nat)>)
    ensures multiset(r) == multiset(t) + multiset{x}
    ensures |r| == |t| + 1 && (r[0] == x || (t != [] && r[0] == t[0]))
  {
    if t == [] || x.1 >= t[0].1 then [x] + t
    else
      var r := [t[0]] + InsertByCount(x, t[1..]);
      assert t == [t[0]] + t[1..];
      r
  }

  lemma {:induction false} InsertByCountOrdered(x: (string, nat), t: seq<(string, nat)>)
    requires NonIncreasing(t)
    ensures NonIncreasing(InsertByCount(x, t))
  {
    if t != [] && x.1 < t[0].1 {
      var rest := InsertByCount(x, t[1..]);
      InsertByCountOrdered(x, t[1..]);
      var r := [t[0]] + rest;
      assert rest[0].1 <= t[0].1;
      forall i, j | 0 <= i < j < |r| ensures r[i].1 >= r[j].1 {
        assert r[j] == rest[j - 1];
        if i > 0 {
          assert r[i] == rest[i - 1];
        } else {
          assert rest[0].1 >= rest[j - 1].1;
        }
      }
    }
  }

  /** `sort_values(by="count", ascending=False)`, as a stable sort. */
  function SortByCountDesc(t: seq<(string, nat)>): (r: seq<(string, nat)>)
    ensures multiset(r) == multiset(t)
    ensures NonIncreasing(r)
  {
    if t == [] then []
    else
      var rest := SortByCountDesc(t[1..]);
      InsertByCountOrdered(t[0], rest);
      assert t == [t[0]] + t[1..];
      assert multiset(t) == multiset(t[1..]) + multiset{t[0]};
      InsertByCount(t[0], rest)
  }

  /** A table already in order is left exactly as it is. */
  lemma {:induction false} SortByCountDescKeepsOrder(t: seq<(string, nat)>)
    requires NonIncreasing(t)
    ensures SortByCountDesc(t) == t
  {
    if t != [] {
      assert NonIncreasing(t[1..]);
      SortByCountDescKeepsOrder(t[1..]);
      assert t == [t[0]] + t[1..];
    }
  }

  // ---------------------------------------------------------------------------
  // The per-city skill ranking
  // ---------------------------------------------------------------------------

  /**
   * `parse_skills`: a text value goes through the literal parser, a parse failure
   * gives the empty list, and a value that is not text is returned as it is.
   */
  function ParseSkills(cell: Cell, literalEval: string -> Option<seq<string>>): (skills: seq<string>)
    ensures cell.Items? ==> skills == cell.items
    ensures cell.Text? && literalEval(cell.text).None? ==> skills == []
    ensures cell.Text? && literalEval(cell.text).Some? ==> skills == literalEval(cell.text).value
  {
    match cell
    case Items(items) => items
    case Text(text) =>
      match literalEval(text)
      case Some(items) => items
      case None => []
  }

  /** The row survives `dropna(subset=["city", "extracted_skills"])` and is in `city`. */
  predicate InCity(v: Vacancy, city: string)
  {
    v.city == Some(city) && v.extractedSkills.Some?
  }

  /** The `extracted_skills` values of the rows of `city_df`, in row order. */
  function CityCells(rows: seq<Vacancy>, city: string): (cells: seq<Cell>)
    ensures |cells| <= |rows|
    ensures cells == [] <==> forall i :: 0 <= i < |rows| ==> !InCity(rows[i], city)
  {
    if rows == [] then []
    else
      var rest := CityCells(rows[1..], city);
      assert forall i :: 1 <= i < |rows| ==> rows[i] == rows[1..][i - 1];
      if InCity(rows[0], city) then [rows[0].extractedSkills.value] + rest else rest
  }

  /** The skills column of `df` with every row outside the city (or without skills) masked as missing. */
  function CityColumn(rows: seq<Vacancy>, city: string): (col: seq<Option<Cell>>)
    ensures |col| == |rows|
    ensures forall i :: 0 <= i < |rows| ==> col[i] == if InCity(rows[i], city) then rows[i].extractedSkills else None
  {
    seq(|rows|, i requires 0 <= i < |rows| => if InCity(rows[i], city) then rows[i].extractedSkills else None)
  }

  /**
   * The city's values are the masked column with the missing entries dropped: each
   * matching row contributes its value exactly once, in row order.
   */
  lemma {:induction false} CityCellsInRowOrder(rows: seq<Vacancy>, city: string)
    ensures CityCells(rows, city) == DropMissing(CityColumn(rows, city))
  {
    if rows != [] {
      CityCellsInRowOrder(rows[1..], city);
      var col := CityColumn(rows, city);
      assert col[1..] == CityColumn(rows[1..], city);
    }
  }

  /** The city's values are exactly the skills values of the rows in that city. */
  lemma {:induction false} CityCellsMembers(rows: seq<Vacancy>, city: string)
    ensures forall c :: c in CityCells(rows, city) <==>
              exists i :: 0 <= i < |rows| && InCity(rows[i], city) && rows[i].extractedSkills == Some(c)
  {
    if rows != [] {
      CityCellsMembers(rows[1..], city);
      forall c ensures c in CityCells(rows, city) <==>
                       exists i :: 0 <= i < |rows| && InCity(rows[i], city) && rows[i].extractedSkills == Some(c)
      {
        if exists i :: 0 <= i < |rows| && InCity(rows[i], city) && rows[i].extractedSkills == Some(c) {
          var i :| 0 <= i < |rows| && InCity(rows[i], city) && rows[i].extractedSkills == Some(c);
          if i > 0 {
            assert rows[1..][i - 1] == rows[i];
          }
        }
        if c in CityCells(rows[1..], city) {
          var i :| 0 <= i < |rows[1..]| && InCity(rows[1..][i], city) && rows[1..][i].extractedSkills == Some(c);
          assert rows[i + 1] == rows[1..][i];
        }
      }
    }
  }

  /** `city_df["extracted_skills"].apply(parse_skills)` */
  function ParsedColumn(cells: seq<Cell>, literalEval: string -> Option<seq<string>>): (lists: seq<seq<string>>)
    ensures |lists| == |cells|
    ensures forall i :: 0 <= i < |cells| ==> lists[i] == ParseSkills(cells[i], literalEval)
  {
    seq(|cells|, i requires 0 <= i < |cells| => ParseSkills(cells[i], literalEval))
  }

  /** No blank at either end and no upper-case letter. */
  predicate IsNormalToken(s: string)
  {
    IsStripped(s) && forall i :: 0 <= i < |s| ==> !IsUpper(s[i])
  }

  /** `skill.strip().lower()` */
  function NormalizeToken(skill: string): (t: string)
    ensures IsNormalToken(t)
  {
    var s := Strip(skill);
    LowerStripped(s);
    Lower(s)
  }

  /**
   * A token normalises to `g` exactly when, once stripped, it has `g`'s length and
   * lower-cases to `g` character by character: padding and letter case are ignored.
   */
  lemma NormalizeTokenMatches(skill: string, g: string)
    ensures NormalizeToken(skill) == g <==>
              |Strip(skill)| == |g| && forall i :: 0 <= i < |g| ==> LowerChar(Strip(skill)[i]) == g[i]
  {
    var t := NormalizeToken(skill);
    assert t == Lower(Strip(skill));
    if |Strip(skill)| == |g| && forall i :: 0 <= i < |g| ==> LowerChar(Strip(skill)[i]) == g[i] {
      assert forall i :: 0 <= i < |g| ==> t[i] == g[i];
    }
  }

  /** Every case or padding variant of a city stoplist term is removed from the city's skills. */
  lemma GenericVariantsDropped(cells: seq<Cell>, literalEval: string -> Option<seq<string>>, skill: string, g: string)
    requires g in CITY_GENERIC_SKILLS
    requires |Strip(skill)| == |g| && forall i :: 0 <= i < |g| ==> LowerChar(Strip(skill)[i]) == g[i]
    ensures NormalizeToken(skill) == g
    ensures NormalizeToken(skill) !in CitySkills(cells, literalEval)
  {
    NormalizeTokenMatches(skill, g);
    CountPositive(CitySkills(cells, literalEval), g);
  }

  /** Lower-casing keeps stripped text stripped and leaves no upper-case letter. */
  lemma LowerStripped(s: string)
    requires IsStripped(s)
    ensures IsNormalToken(Lower(s))
  {
    var t := Lower(s);
    forall i | 0 <= i < |t| ensures !IsUpper(t[i]) {
      LowerCharSpace(s[i]);
    }
    if t != [] {
      LowerCharSpace(s[0]);
      LowerCharSpace(s[|s| - 1]);
    }
  }

  function NormalizeAll(tokens: seq<string>): (r: seq<string>)
    ensures |r| == |tokens|
    ensures forall i :: 0 <= i < |tokens| ==> r[i] == NormalizeToken(tokens[i])
  {
    seq(|tokens|, i requires 0 <= i < |tokens| => NormalizeToken(tokens[i]))
  }

  /** `all_skills` of the city view: every parsed token normalised, then the generic terms removed. */
  function CitySkills(cells: seq<Cell>, literalEval: string -> Option<seq<string>>): (skills: seq<string>)
    ensures forall i :: 0 <= i < |skills| ==> skills[i] !in CITY_GENERIC_SKILLS
  {
    Without(NormalizeAll(Flatten(ParsedColumn(cells, literalEval))), CITY_GENERIC_SKILLS)
  }

  /**
   * The city's skill list holds normalised, non-generic tokens only; every token whose
   * normal form is not generic is kept with all its occurrences, and one whose normal
   * form is generic (in any letter case or padding) is gone.
   */
  lemma CitySkillsCorrect(cells: seq<Cell>, literalEval: string -> Option<seq<string>>)
    ensures forall i :: 0 <= i < |CitySkills(cells, literalEval)| ==>
              CitySkills(cells, literalEval)[i] !in CITY_GENERIC_SKILLS && IsNormalToken(CitySkills(cells, literalEval)[i])
    ensures forall s :: s !in CITY_GENERIC_SKILLS ==>
              Count(CitySkills(cells, literalEval), s) == Count(NormalizeAll(Flatten(ParsedColumn(cells, literalEval))), s)
    ensures forall t :: t in Flatten(ParsedColumn(cells, literalEval)) ==>
              (NormalizeToken(t) in CitySkills(cells, literalEval) <==> NormalizeToken(t) !in CITY_GENERIC_SKILLS)
  {
    var tokens := Flatten(ParsedColumn(cells, literalEval));
    var normal := NormalizeAll(tokens);
    var r := CitySkills(cells, literalEval);
    forall i | 0 <= i < |r| ensures IsNormalToken(r[i]) {
      CountPositive(r, r[i]);
      CountPositive(normal, r[i]);
      var j :| 0 <= j < |normal| && normal[j] == r[i];
    }
    forall t | t in tokens ensures NormalizeToken(t) in r <==> NormalizeToken(t) !in CITY_GENERIC_SKILLS {
      var j :| 0 <= j < |tokens| && tokens[j] == t;
      assert normal[j] == NormalizeToken(t);
      CountPositive(r, NormalizeToken(t));
      CountPositive(normal, NormalizeToken(t));
    }
  }

  /**
   * The two stoplists differ: a capitalised generic term survives the aggregation
   * script's exact match but is removed by the city view, which normalises first.
   */
  lemma CityViewDropsCaseVariants()
    ensures Without(["Data Analysis", "SQL"], SkillsAnalysis.GENERIC_SKILLS) == ["Data Analysis", "SQL"]
    ensures Without(NormalizeAll(["Data Analysis", " SQL"]), CITY_GENERIC_SKILLS) == ["sql"]
  {
    ExactMatchKeepsCapitalised();
    var da, sql := "Data Analysis", " SQL";
    NormalizeDataAnalysis(da);
    NormalizePaddedSql(sql);
    var n := NormalizeAll([da, sql]);
    assert n[0] == "data analysis" && n[1] == "sql";
    WithoutGenericFirst(n);
  }

  lemma WithoutGenericFirst(n: seq<string>)
    requires |n| == 2 && n[0] in CITY_GENERIC_SKILLS && n[1] !in CITY_GENERIC_SKILLS
    ensures Without(n, CITY_GENERIC_SKILLS) == [n[1]]
  {
    assert n[1..][1..] == [];
  }

  lemma ExactMatchKeepsCapitalised()
    ensures Without(["Data Analysis", "SQL"], SkillsAnalysis.GENERIC_SKILLS) == ["Data Analysis", "SQL"]
  {
    assert "Data Analysis" !in SkillsAnalysis.GENERIC_SKILLS by {
      assert "Data Analysis"[0] != "data analysis"[0];
    }
    assert "SQL" !in SkillsAnalysis.GENERIC_SKILLS;
    assert ["Data Analysis", "SQL"][1..] == ["SQL"];
  }

  lemma NormalizeDataAnalysis(s: string)
    requires s == "Data Analysis"
    ensures NormalizeToken(s) == "data analysis"
  {
    DataAnalysisStripped(s);
    DataAnalysisLowered(s);
  }

  lemma DataAnalysisStripped(s: string)
    requires s == "Data Analysis"
    ensures Strip(s) == s
  {
    assert IsStripped(s);
    StripStripped(s);
  }

  lemma DataAnalysisLowered(s: string)
    requires s == "Data Analysis"
    ensures Lower(s) == "data analysis"
  {
    assert forall i :: 0 <= i < |s| ==> LowerChar(s[i]) == "data analysis"[i];
  }

  lemma NormalizePaddedSql(s: string)
    requires s == " SQL"
    ensures NormalizeToken(s) == "sql"
  {
    var t := "SQL";
    assert s == " " + t;
    assert IsStripped(t);
    StripPadded(t);
    assert forall i :: 0 <= i < 3 ==> LowerChar(t[i]) == "sql"[i];
  }

  /** `re.sub(r"[^a-zA-Z0-9\s]", "", x)` */
  function RemoveSymbols(s: string): (r: string)
    ensures AllSat(r, IsAlnumOrSpace)
  {
    KeepChars(s, IsAlnumOrSpace)
  }

  /** `astype(str).str.strip()`, then the symbol removal. */
  function CleanSkillName(skill: string): (r: string)
    ensures AllSat(r, IsAlnumOrSpace)
    ensures |r| <= |skill|
  {
    RemoveSymbols(Strip(skill))
  }

  /** A trimmed name made of letters, digits and blanks only is shown as it is. */
  lemma CleanSkillNameKeepsPlainNames(skill: string)
    requires IsStripped(skill) && AllSat(skill, IsAlnumOrSpace)
    ensures CleanSkillName(skill) == skill
  {
    StripStripped(skill);
    KeepCharsAll(skill, IsAlnumOrSpace);
  }

  /** The clean-up can merge two different skills into one label: "c++" and "c#" both become "c". */
  lemma CleanSkillNameMerges(plus: string, sharp: string)
    requires plus == "c++" && sharp == "c#"
    ensures CleanSkillName(plus) == CleanSkillName(sharp) == "c"
  {
    assert !IsAlnumOrSpace('+') && !IsAlnumOrSpace('#');
    assert plus[..1] == sharp[..1] == "c";
    CleanSkillNameDropsSymbols(plus);
    CleanSkillNameDropsSymbols(sharp);
  }

  /** A letter followed by symbols only is cleaned down to the letter. */
  lemma CleanSkillNameDropsSymbols(s: string)
    requires |s| >= 1 && IsLower(s[0])
    requires forall i :: 1 <= i < |s| ==> !IsAlnumOrSpace(s[i])
    ensures CleanSkillName(s) == s[..1]
  {
    LetterThenSymbolsStripped(s);
    StripStripped(s);
    LetterThenSymbolsKept(s);
  }

  lemma LetterThenSymbolsStripped(s: string)
    requires |s| >= 1 && IsLower(s[0])
    requires forall i :: 1 <= i < |s| ==> !IsAlnumOrSpace(s[i])
    ensures IsStripped(s)
  {
  }

  lemma LetterThenSymbolsKept(s: string)
    requires |s| >= 1 && IsLower(s[0])
    requires forall i :: 1 <= i < |s| ==> !IsAlnumOrSpace(s[i])
    ensures KeepChars(s, IsAlnumOrSpace) == s[..1]
  {
    assert s == s[..1] + s[1..];
    KeepCharsAppend(s[..1], s[1..], IsAlnumOrSpace);
    KeepCharsNone(s[1..], IsAlnumOrSpace);
    assert KeepChars(s[..1], IsAlnumOrSpace) == s[..1] by {
      assert s[..1][1..] == [];
    }
  }

  /** The bar rows of the city view: the ranked pairs with their names cleaned. */
  function CleanTable(top: seq<(string, nat)>): (t: seq<(string, nat)>)
    ensures |t| == |top|
    ensures forall i :: 0 <= i < |t| ==> t[i] == (CleanSkillName(top[i].0), top[i].1)
  {
    seq(|top|, i requires 0 <= i < |top| => (CleanSkillName(top[i].0), top[i].1))
  }

  /**
   * The bars of a city's chart: at most ten, names of letters, digits and whitespace
   * only, counts non-increasing, so the final sort leaves them as they are.
   */
  lemma CityBars(skills: seq<string>)
    ensures var t := CleanTable(MostCommon(skills, CITY_TOP_N));
            |t| <= CITY_TOP_N && NonIncreasing(t) && SortByCountDesc(t) == t &&
            forall i :: 0 <= i < |t| ==> AllSat(t[i].0, IsAlnumOrSpace)
  {
    var top := MostCommon(skills, CITY_TOP_N);
    var t := CleanTable(top);
    assert NonIncreasing(t);
    SortByCountDescKeepsOrder(t);
  }

  /**
   * `updated_skills_chart`. For "all" the stored top-skills table is shown, sorted by
   * count. For a city: no matching rows gives the "No data" chart; rows whose tokens
   * all drop out give the "No skills" chart; otherwise the ten most common tokens of
   * the city, in `most_common` order, with their names cleaned.
   */
  method UpdatedSkillsChart(selectedCity: string, rows: seq<Vacancy>, topSkillsTable: seq<(string, nat)>,
                            literalEval: string -> Option<seq<string>>)
    returns (fig: Figure)
    ensures selectedCity == ALL_CITIES ==>
              fig.Bar? && fig.title == ALL_CITIES_TITLE &&
              multiset(fig.table) == multiset(topSkillsTable) && NonIncreasing(fig.table)
    ensures selectedCity != ALL_CITIES ==>
              (fig == Blank(NO_DATA_TITLE + selectedCity) <==> CityCells(rows, selectedCity) == [])
    ensures selectedCity != ALL_CITIES && CityCells(rows, selectedCity) != [] ==>
              (fig == Blank(NO_SKILLS_TITLE + selectedCity) <==> CitySkills(CityCells(rows, selectedCity), literalEval) == [])
    ensures selectedCity != ALL_CITIES ==>
              (fig.Bar? <==> CitySkills(CityCells(rows, selectedCity), literalEval) != [])
    ensures selectedCity != ALL_CITIES && fig.Bar? ==>
              fig.title == CITY_TITLE + selectedCity &&
              fig.table == CleanTable(MostCommon(CitySkills(CityCells(rows, selectedCity), literalEval), CITY_TOP_N))
    ensures fig.Bar? ==> |fig.table| <= CITY_TOP_N || selectedCity == ALL_CITIES
    ensures fig.Bar? ==> NonIncreasing(fig.table)
    ensures fig.Bar? && selectedCity != ALL_CITIES ==>
              forall i :: 0 <= i < |fig.table| ==> AllSat(fig.table[i].0, IsAlnumOrSpace)
  {
    assert (NO_DATA_TITLE + selectedCity)[3] != (NO_SKILLS_TITLE + selectedCity)[3];
    if selectedCity == ALL_CITIES {
      var table := SortByCountDesc(topSkillsTable);
      fig := Bar(ALL_CITIES_TITLE, table);
      return;
    }
    var cells := CityCells(rows, selectedCity);
    if cells == [] {
      assert CitySkills(cells, literalEval) == [];
      fig := Blank(NO_DATA_TITLE + selectedCity);
      return;
    }
    fig := CityChart(selectedCity, cells, literalEval);
  }

  /** The city branch of `updated_skills_chart`, once the city has rows. */
  method CityChart(selectedCity: string, cells: seq<Cell>, literalEval: string -> Option<seq<string>>)
    returns (fig: Figure)
    ensures fig == Blank(NO_SKILLS_TITLE + selectedCity) <==> CitySkills(cells, literalEval) == []
    ensures fig.Bar? <==> CitySkills(cells, literalEval) != []
    ensures fig.Bar? ==>
              fig.title == CITY_TITLE + selectedCity &&
              fig.table == CleanTable(MostCommon(CitySkills(cells, literalEval), CITY_TOP_N)) &&
              |fig.table| <= CITY_TOP_N && NonIncreasing(fig.table) &&
              forall i :: 0 <= i < |fig.table| ==> AllSat(fig.table[i].0, IsAlnumOrSpace)
  {
    var column := ParsedColumn(cells, literalEval);
    var allSkills := NormalizeAll(Flatten(column));
    allSkills := Without(allSkills, CITY_GENERIC_SKILLS);
    if allSkills == [] {
      fig := Blank(NO_SKILLS_TITLE + selectedCity);
      return;
    }
    var top := MostCommon(allSkills, CITY_TOP_N);
    var table := CleanNames(top);
    CityBars(allSkills);
    table := SortByCountDesc(table);
    fig := Bar(CITY_TITLE + selectedCity, table);
  }

  /** `top_skills_df["Skill"].astype(str).str.strip()`, then the symbol removal, column-wise. */
  method CleanNames(top: seq<(string, nat)>) returns (table: seq<(string, nat)>)
    ensures table == CleanTable(top)
  {
    table := seq(|top|, i requires 0 <= i < |top| => (Strip(top[i].0), top[i].1));
    table := seq(|table|, i requires 0 <= i < |table| => (RemoveSymbols(table[i].0), table[i].1));
    assert forall i :: 0 <= i < |table| ==> table[i] == (CleanSkillName(top[i].0), top[i].1);
  }

  // ---------------------------------------------------------------------------
  // Vacancies by company founding year
  // ---------------------------------------------------------------------------

  /** `vacancies_by_year[... > 0]` on the counted years. */
  function PositiveYears(years: seq<int>): (r: seq<int>)
    ensures forall i :: 0 <= i < |r| ==> r[i] > 0
    ensures forall y :: y > 0 ==> Count(r, y) == Count(years, y)
  {
    if years == [] then []
    else
      var head := if years[0] > 0 then [years[0]] else [];
      var r := head + PositiveYears(years[1..]);
      CountAppendAll(head, PositiveYears(years[1..]));
      assert years == [years[0]] + years[1..];
      CountAppendAll([years[0]], years[1..]);
      r
  }

  predicate StrictlyIncreasing(ys: seq<int>)
  {
    forall i, j :: 0 <= i < j < |ys| ==> ys[i] < ys[j]
  }

  function InsertYear(y: int, ys: seq<int>): (r: seq<int>)
    requires StrictlyIncreasing(ys) && y !in ys
    ensures StrictlyIncreasing(r)
    ensures forall z :: z in r <==> z == y || z in ys
    ensures |r| == |ys| + 1 && (r[0] == y || r[0] == ys[0])
  {
    if ys == [] || y < ys[0] then [y] + ys
    else [ys[0]] + InsertYear(y, ys[1..])
  }

  /** `sort_values(by="Year Founded")` on distinct years. */
  function SortYears(ys: seq<int>): (r: seq<int>)
    requires NoDup(ys)
    ensures StrictlyIncreasing(r)
    ensures forall z :: z in r <==> z in ys
  {
    if ys == [] then []
    else
      assert forall i, j :: 0 <= i < j < |ys[1..]| ==> ys[1..][i] == ys[i + 1] && ys[1..][j] == ys[j + 1];
      assert ys[0] !in ys[1..];
      InsertYear(ys[0], SortYears(ys[1..]))
  }

  /**
   * `vacancies_by_year`: each positive founding year that occurs, once, in ascending
   * order, with the number of vacancies of companies founded that year.
   */
  function FoundedTable(founded: seq<Option<int>>): (table: seq<(int, nat)>)
    ensures forall i :: 0 <= i < |table| ==> table[i].0 > 0 && table[i].1 == Count(founded, Some(table[i].0)) > 0
    ensures forall i, j :: 0 <= i < j < |table| ==> table[i].0 < table[j].0
    ensures forall y :: y > 0 && Some(y) in founded ==> y in Keys(table)
  {
    var present := DropMissing(founded);
    var positive := PositiveYears(present);
    var years := SortYears(Distinct(positive));
    FoundedYears(founded, positive, years);
    YearCounts(years, positive)
  }

  /** `value_counts()` read off for the given years, in their order. */
  function YearCounts(years: seq<int>, counted: seq<int>): (table: seq<(int, nat)>)
    ensures Keys(table) == years
    ensures forall i :: 0 <= i < |table| ==> table[i] == (years[i], Count(counted, years[i]))
  {
    var table := seq(|years|, i requires 0 <= i < |years| => (years[i], Count(counted, years[i])));
    assert Keys(table) == years;
    table
  }

  /** The years kept are the positive years of the column, each with its number of vacancies. */
  lemma FoundedYears(founded: seq<Option<int>>, positive: seq<int>, years: seq<int>)
    requires forall y :: y > 0 ==> Count(positive, y) == Count(founded, Some(y))
    requires forall i :: 0 <= i < |positive| ==> positive[i] > 0
    requires forall z :: z in years <==> z in positive
    ensures forall i :: 0 <= i < |years| ==> years[i] > 0 && Count(positive, years[i]) == Count(founded, Some(years[i])) > 0
    ensures forall y :: y > 0 && Some(y) in founded ==> y in years
  {
    forall i | 0 <= i < |years| ensures years[i] > 0 && Count(positive, years[i]) == Count(founded, Some(years[i])) > 0 {
      assert years[i] in years;
      var j :| 0 <= j < |positive| && positive[j] == years[i];
      CountPositive(positive, years[i]);
    }
    forall y | y > 0 && Some(y) in founded ensures y in years {
      CountPositive(founded, Some(y));
      CountPositive(positive, y);
    }
  }

  // ---------------------------------------------------------------------------
  // Top industries
  // ---------------------------------------------------------------------------

  /** `replace("-1", np.nan)` on the industry column. */
  function ReplacePlaceholder(column: seq<Option<string>>): (r: seq<Option<string>>)
    ensures |r| == |column|
    ensures Count(r, Some(MISSING_INDUSTRY)) == 0
    ensures forall x :: x != MISSING_INDUSTRY ==> Count(r, Some(x)) == Count(column, Some(x))
    ensures Count(r, None) == Count(column, None) + Count(column, Some(MISSING_INDUSTRY))
  {
    if column == [] then []
    else [if column[0] == Some(MISSING_INDUSTRY) then None else column[0]] + ReplacePlaceholder(column[1..])
  }

  /**
   * `industry_counts`: at most ten industries, never the placeholder, each with the
   * number of vacancies that name it, by non-increasing count; an industry left out
   * has no more vacancies than any listed one, and with fewer than ten rows every
   * named industry is listed.
   */
  method IndustryDistribution(industry: seq<Option<string>>) returns (table: seq<(string, nat)>)
    ensures |table| <= INDUSTRY_TOP_N
    ensures NoDup(Keys(table))
    ensures forall i :: 0 <= i < |table| ==>
              table[i].0 != MISSING_INDUSTRY && table[i].1 == Count(industry, Some(table[i].0)) > 0
    ensures NonIncreasing(table)
    ensures forall x, i :: x != MISSING_INDUSTRY && Some(x) in industry && x !in Keys(table) && 0 <= i < |table| ==>
              Count(industry, Some(x)) <= table[i].1
    ensures |table| < INDUSTRY_TOP_N ==>
              forall x :: x != MISSING_INDUSTRY && Some(x) in industry ==> x in Keys(table)
  {
    var column := ReplacePlaceholder(industry);
    var present := DropMissing(column);
    table := MostCommon(present, INDUSTRY_TOP_N);
    assert forall x :: x != MISSING_INDUSTRY ==> Count(present, x) == Count(industry, Some(x));
    assert MISSING_INDUSTRY !in present by {
      CountPositive(present, MISSING_INDUSTRY);
    }
    forall i | 0 <= i < |table| ensures table[i].0 != MISSING_INDUSTRY && table[i].1 > 0 {
      CountPositive(present, table[i].0);
    }
    forall x | x != MISSING_INDUSTRY && Some(x) in industry ensures x in present {
      CountPositive(industry, Some(x));
      CountPositive(present, x);
    }
  }
}
