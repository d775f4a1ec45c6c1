/**
 * The skill aggregation of job_market/skills_analysis.py: the stored extractor replies
 * are split on commas and trimmed, flattened, stripped of generic terms (an exact,
 * case-sensitive match), counted, and ranked into the top ten.
 */
module SkillsAnalysis {
  import opened Wrappers
  import opened Seqs
  import opened Strings
  import opened Counter

  /** `generic_skills` */
  const GENERIC_SKILLS: set<string> :=
    {"data analysis", "analytics", "business intelligence", "data science", "[data analysis"}

  /** `most_common(10)` */
  const TOP_N: nat := 10

  /** `[skill.strip() for skill in x.split(",")]` */
  function ParseSkillList(x: string): (skills: seq<string>)
    ensures |skills| == Count(x, ',') + 1 == |Split(x, ',')|
    ensures forall i :: 0 <= i < |skills| ==> IsStripped(skills[i]) && ',' !in skills[i]
    ensures forall i :: 0 <= i < |skills| ==> skills[i] == Strip(Split(x, ',')[i])
  {
    var parts := Split(x, ',');
    SplitCount(x, ',');
    seq(|parts|, i requires 0 <= i < |parts| => StripNoComma(parts[i]))
  }

  /**
   * Token `i` is comma piece `i` of the reply with whitespace-only borders cut off
   * on both sides.
   */
  lemma ParseSkillListPiece(x: string, i: nat)
    requires i < |ParseSkillList(x)|
    ensures exists a, b :: Split(x, ',')[i] == a + ParseSkillList(x)[i] + b && AllSat(a, IsSpace) && AllSat(b, IsSpace)
  {
    var piece := Split(x, ',')[i];
    var a, b := StripBorders(piece);
    assert piece == a + ParseSkillList(x)[i] + b;
  }

  /** `Strip`, with the fact that it keeps a comma-free piece comma-free. */
  function StripNoComma(piece: string): (r: string)
    requires ',' !in piece
    ensures r == Strip(piece) && ',' !in r
  {
    StripChars(piece);
    Strip(piece)
  }

  /** The pieces of a `", "`-separated reply, as `split(",")` cuts it. */
  function Padded(items: seq<string>): (ps: seq<string>)
    requires |items| >= 1
    ensures |ps| == |items| && ps[0] == items[0]
    ensures forall i :: 1 <= i < |ps| ==> ps[i] == " " + items[i]
  {
    [items[0]] + seq(|items| - 1, i requires 0 <= i < |items| - 1 => " " + items[i + 1])
  }

  lemma {:induction false} JoinPadded(items: seq<string>)
    requires |items| >= 1
    ensures Join(items, ", ") == Join(Padded(items), [','])
  {
    if |items| > 1 {
      JoinPadded(items[1..]);
      var p, q := Padded(items), Padded(items[1..]);
      assert p[1..] == [" " + q[0]] + q[1..];
      JoinFirstPrefixed(p[1..], q, " ");
    }
  }

  /** Prefixing the first piece prefixes the whole join. */
  lemma JoinFirstPrefixed(qs: seq<string>, ps: seq<string>, pre: string)
    requires |ps| >= 1 && qs == [pre + ps[0]] + ps[1..]
    ensures Join(qs, [',']) == pre + Join(ps, [','])
  {
    if |ps| == 1 {
      assert qs == [pre + ps[0]];
    } else {
      assert qs[1..] == ps[1..];
      var j := Join(ps[1..], [',']);
      assert Join(qs, [',']) == qs[0] + [','] + j;
    }
  }

  /** One blank in front of a trimmed, comma-free item: still comma-free, and `strip()` removes the blank. */
  lemma PaddedItem(t: string)
    requires IsStripped(t) && ',' !in t
    ensures Strip(" " + t) == t && ',' !in " " + t
  {
    assert forall k :: 0 <= k < |t| ==> (" " + t)[k + 1] == t[k];
    StripPadded(t);
  }

  /** The padded pieces are comma-free and trim back to the items. */
  lemma PaddedPieces(items: seq<string>)
    requires |items| >= 1
    requires forall i :: 0 <= i < |items| ==> IsStripped(items[i]) && ',' !in items[i]
    ensures forall i :: 0 <= i < |items| ==> ',' !in Padded(items)[i] && Strip(Padded(items)[i]) == items[i]
  {
    var ps := Padded(items);
    forall i | 0 <= i < |items| ensures ',' !in ps[i] && Strip(ps[i]) == items[i] {
      if i > 0 {
        assert ps[i] == " " + items[i];
        PaddedItem(items[i]);
      } else {
        StripStripped(items[i]);
      }
    }
  }

  /**
   * A reply the extractor writes as trimmed, comma-free items joined by `", "`
   * parses back into exactly those items.
   */
  lemma ParseSkillListOfJoin(items: seq<string>)
    requires |items| >= 1
    requires forall i :: 0 <= i < |items| ==> IsStripped(items[i]) && ',' !in items[i]
    ensures ParseSkillList(Join(items, ", ")) == items
  {
    var ps := Padded(items);
    JoinPadded(items);
    PaddedPieces(items);
    SplitJoin(ps, ',');
    var x := Join(items, ", ");
    assert Split(x, ',') == ps;
    var r := ParseSkillList(x);
    assert |r| == |items|;
    forall i | 0 <= i < |items| ensures r[i] == items[i] {
      assert r[i] == Strip(ps[i]);
    }
  }

  /** `df.dropna(subset=["extracted_skills"])` then the comma-split parse of every reply. */
  function ParseColumn(column: seq<Option<string>>): (lists: seq<seq<string>>)
    ensures |lists| == |column| - Count(column, None) == |DropMissing(column)|
    ensures forall i :: 0 <= i < |lists| ==> |lists[i]| >= 1
    ensures forall i :: 0 <= i < |lists| ==> lists[i] == ParseSkillList(DropMissing(column)[i])
  {
    var present := DropMissing(column);
    seq(|present|, i requires 0 <= i < |present| => ParseSkillList(present[i]))
  }

  /** `all_skills` before the generic-term filter: every token, rows in order, tokens in order. */
  function AllSkills(column: seq<Option<string>>): (all: seq<string>)
    ensures forall s :: s in all <==> exists i :: 0 <= i < |ParseColumn(column)| && s in ParseColumn(column)[i]
  {
    FlattenMembers(ParseColumn(column));
    Flatten(ParseColumn(column))
  }

  /** `all_skills` after the generic-term filter. */
  function FilteredSkills(column: seq<Option<string>>): (skills: seq<string>)
    ensures forall s :: s in skills <==> s in AllSkills(column) && s !in GENERIC_SKILLS
  {
    var r := Without(AllSkills(column), GENERIC_SKILLS);
    forall s ensures s in r <==> s in AllSkills(column) && s !in GENERIC_SKILLS {
      CountPositive(r, s);
      CountPositive(AllSkills(column), s);
    }
    r
  }

  /** `skills_count` */
  function SkillsCount(column: seq<Option<string>>): (counts: map<string, nat>)
    ensures forall s :: s in counts <==> s in AllSkills(column) && s !in GENERIC_SKILLS
    ensures forall s :: s in counts ==> counts[s] == Count(AllSkills(column), s)
  {
    Tally(FilteredSkills(column))
  }

  /** `top_skills` */
  function TopSkills(column: seq<Option<string>>): (top: seq<(string, nat)>)
    ensures |top| <= TOP_N
  {
    MostCommon(FilteredSkills(column), TOP_N)
  }

  /** `top_skill_names` */
  function TopSkillNames(top: seq<(string, nat)>): (names: seq<string>)
    ensures |names| == |top| && forall i :: 0 <= i < |top| ==> names[i] == top[i].0
  {
    Keys(top)
  }

  /** `top_skill_counts` */
  function TopSkillCounts(top: seq<(string, nat)>): (counts: seq<nat>)
    ensures |counts| == |top| && forall i :: 0 <= i < |top| ==> counts[i] == top[i].1
  {
    Values(top)
  }

  /** Token `j` of parsed row `i` is at its row-ordered position in `all_skills`. */
  lemma AllSkillsOrder(column: seq<Option<string>>, i: nat, j: nat)
    requires i < |ParseColumn(column)| && j < |ParseColumn(column)[i]|
    ensures var lists := ParseColumn(column);
            |Flatten(lists[..i])| + j < |AllSkills(column)| &&
            AllSkills(column)[|Flatten(lists[..i])| + j] == lists[i][j]
  {
    FlattenIndex(ParseColumn(column), i, j);
  }

  /**
   * The filter drops exactly the generic terms: no generic term is left, and every
   * other token keeps all its occurrences, in order.
   */
  lemma FilteredSkillsExact(column: seq<Option<string>>)
    ensures forall s :: s in FilteredSkills(column) ==> s !in GENERIC_SKILLS
    ensures forall s :: s !in GENERIC_SKILLS ==> Count(FilteredSkills(column), s) == Count(AllSkills(column), s)
    ensures IsSubsequence(FilteredSkills(column), AllSkills(column))
  {
    var r := FilteredSkills(column);
    forall s | s in r ensures s !in GENERIC_SKILLS {
      var i :| 0 <= i < |r| && r[i] == s;
    }
  }

  /** The match is exact: a capitalised generic term is kept. */
  lemma GenericFilterIsCaseSensitive()
    ensures Without(["Data Analysis", "data analysis", "SQL"], GENERIC_SKILLS) == ["Data Analysis", "SQL"]
  {
    var xs := ["Data Analysis", "data analysis", "SQL"];
    assert "Data Analysis" !in GENERIC_SKILLS by {
      assert "Data Analysis"[0] != "data analysis"[0];
    }
    assert "SQL" !in GENERIC_SKILLS;
    assert xs[1..] == ["data analysis", "SQL"];
    assert xs[1..][1..] == ["SQL"];
    assert Without(["SQL"], GENERIC_SKILLS) == ["SQL"];
  }

  /** `skills_count[s]` is the number of times `s` occurs, and the counts add up to `len(all_skills)`. */
  lemma SkillsCountCorrect(column: seq<Option<string>>)
    ensures forall s :: s in SkillsCount(column) <==> s in FilteredSkills(column)
    ensures forall s :: s in SkillsCount(column) ==> SkillsCount(column)[s] == Count(FilteredSkills(column), s)
    ensures forall i :: 0 <= i < |Distinct(FilteredSkills(column))| ==> Distinct(FilteredSkills(column))[i] in SkillsCount(column)
    ensures SumCounts(Distinct(FilteredSkills(column)), SkillsCount(column)) == |FilteredSkills(column)|
  {
    TallyTotal(FilteredSkills(column));
  }

  /**
   * The top list: at most ten distinct non-generic skills with their true counts,
   * by non-increasing count with ties in first-encountered order, and no omitted
   * skill has a larger count than a listed one.
   */
  lemma TopSkillsCorrect(column: seq<Option<string>>)
    ensures |TopSkills(column)| <= TOP_N
    ensures NoDup(TopSkillNames(TopSkills(column)))
    ensures forall i :: 0 <= i < |TopSkills(column)| ==>
              TopSkills(column)[i].0 !in GENERIC_SKILLS &&
              TopSkills(column)[i].1 == Count(AllSkills(column), TopSkills(column)[i].0) > 0
    ensures forall i, j :: 0 <= i < j < |TopSkills(column)| ==>
              TopSkills(column)[i].1 > TopSkills(column)[j].1 ||
              (TopSkills(column)[i].1 == TopSkills(column)[j].1 &&
               FirstIndex(FilteredSkills(column), TopSkills(column)[i].0) < FirstIndex(FilteredSkills(column), TopSkills(column)[j].0))
    ensures forall s, i :: s in FilteredSkills(column) && s !in TopSkillNames(TopSkills(column)) && 0 <= i < |TopSkills(column)| ==>
              Count(AllSkills(column), s) <= TopSkills(column)[i].1
  {
    var xs := FilteredSkills(column);
    var top := TopSkills(column);
    FilteredSkillsExact(column);
    forall i | 0 <= i < |top| ensures top[i].0 !in GENERIC_SKILLS && top[i].1 == Count(AllSkills(column), top[i].0) > 0 {
      CountPositive(xs, top[i].0);
    }
  }

  /** The names and counts are the two columns of the top list, in the same order. */
  lemma TopSkillColumns(top: seq<(string, nat)>)
    ensures |TopSkillNames(top)| == |TopSkillCounts(top)| == |top|
    ensures forall i :: 0 <= i < |top| ==> (TopSkillNames(top)[i], TopSkillCounts(top)[i]) == top[i]
  {
  }
}
