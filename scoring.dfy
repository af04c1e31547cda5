/** The scorer nested in the rank endpoint: 40 points for the qualification,
    up to 40 for the share of required skills the candidate has, up to 20 for
    closeness in years of experience, the sum rounded to two decimals. */
module Scoring {
  import opened Records
  import opened Text

  function Abs(n: int): nat
  {
    if n < 0 then -n else n
  }

  /** `max(n, 1)`, the floor on both denominators. */
  function AtLeastOne(n: int): (m: int)
    ensures m >= 1 && m >= n
  {
    if n < 1 then 1 else n
  }

  /** `set(skills.lower().split(","))`. */
  function SkillSet(skills: string): (tokens: set<string>)
    ensures tokens != {}
  {
    var parts := SplitComma(Lower(skills));
    var tokens := set t | t in parts;
    assert parts[0] in tokens;
    tokens
  }

  /** 40 points when the qualifications agree after lower-casing, else 0. */
  function QualificationTerm(have: string, required: string): real
  {
    if Lower(have) == Lower(required) then 40.0 else 0.0
  }

  /** `len(have & required) / max(len(required), 1) * 40`. */
  function SkillTerm(have: set<string>, required: set<string>): real
  {
    (|have * required| as real / AtLeastOne(|required|) as real) * 40.0
  }

  /** `max(0, 1 - abs(have - target) / max(target, 1)) * 20`. */
  function ExperienceTerm(have: int, target: int): real
  {
    var gap := Abs(have - target) as real / AtLeastOne(target) as real;
    (if 1.0 - gap < 0.0 then 0.0 else 1.0 - gap) * 20.0
  }

  /** `round(x, 2)`: the nearest multiple of 0.01, ties to the even multiple. */
  function Round2(x: real): real
  {
    var scaled := x * 100.0;
    var n := scaled.Floor;
    var frac := scaled - n as real;
    var m := if frac < 0.5 then n
             else if frac > 0.5 then n + 1
             else if n % 2 == 0 then n else n + 1;
    m as real / 100.0
  }

  /** The sum of the three terms before rounding. */
  function RawScore(c: Resume, k: Criteria): real
  {
    QualificationTerm(c.qualification, k.qualification)
    + SkillTerm(SkillSet(c.skills), SkillSet(k.skills))
    + ExperienceTerm(c.experience, k.experience)
  }

  /** `calculate_score(candidate)` against the criteria `k`. */
  function Score(c: Resume, k: Criteria): real
  {
    Round2(RawScore(c, k))
  }

  // ---------------------------------------------------------------------
  // Set cardinality

  lemma {:induction false} SubsetCardinality<T>(a: set<T>, b: set<T>)
    requires a <= b
    ensures |a| <= |b|
    ensures |a| == |b| ==> a == b
    decreases a
  {
    if a != {} {
      var x :| x in a;
      SubsetCardinality(a - {x}, b - {x});
      assert a == (a - {x}) + {x};
      assert b == (b - {x}) + {x};
    }
  }

  // ---------------------------------------------------------------------
  // The qualification term

  /** The qualification term ignores the case of both sides. */
  lemma QualificationIgnoresCase(have: string, required: string)
    ensures QualificationTerm(Upper(have), required) == QualificationTerm(have, required)
    ensures QualificationTerm(have, Upper(required)) == QualificationTerm(have, required)
    ensures QualificationTerm(Lower(have), required) == QualificationTerm(have, required)
    ensures QualificationTerm(have, Lower(required)) == QualificationTerm(have, required)
  {
    LowerOfUpper(have);
    LowerOfUpper(required);
    LowerIdempotent(have);
    LowerIdempotent(required);
  }

  // ---------------------------------------------------------------------
  // The skill term

  /** The skill set does not depend on the case of the skills string. */
  lemma SkillSetIgnoresCase(skills: string)
    ensures SkillSet(Upper(skills)) == SkillSet(skills)
    ensures SkillSet(Lower(skills)) == SkillSet(skills)
  {
    LowerOfUpper(skills);
    LowerIdempotent(skills);
  }

  /** Every token of a skill set is a comma-free piece of the lower-cased
      string, and every such piece is a token. */
  lemma SkillSetTokens(skills: string, t: string)
    ensures t in SkillSet(skills) <==> t in SplitComma(Lower(skills))
    ensures t in SkillSet(skills) ==> ',' !in t
  {
    SplitPiecesHaveNoComma(Lower(skills));
  }

  /** A share of a positive whole lies in [0, 1]. */
  lemma DivAtMostOne(n: real, d: real)
    requires 0.0 <= n <= d && d > 0.0
    ensures 0.0 <= n / d <= 1.0
  {
  }

  lemma SkillTermRange(have: set<string>, required: set<string>)
    ensures 0.0 <= SkillTerm(have, required) <= 40.0
  {
    SubsetCardinality(have * required, required);
    DivAtMostOne(|have * required| as real, AtLeastOne(|required|) as real);
  }

  /** With at least one required skill, the skill term is full exactly when
      every required skill is among the candidate's. */
  lemma SkillTermFull(have: set<string>, required: set<string>)
    requires required != {}
    ensures SkillTerm(have, required) == 40.0 <==> required <= have
  {
    SubsetCardinality(have * required, required);
    var d := |required| as real;
    assert AtLeastOne(|required|) == |required|;
    var q := |have * required| as real / d;
    assert q * d == |have * required| as real;
    if required <= have {
      assert have * required == required;
    }
    if SkillTerm(have, required) == 40.0 {
      assert q == 1.0;
      assert |have * required| == |required|;
    }
  }

  lemma SkillTermNone(have: set<string>, required: set<string>)
    ensures SkillTerm(have, required) == 0.0 <==> have * required == {}
  {
    var d := AtLeastOne(|required|) as real;
    var q := |have * required| as real / d;
    assert q * d == |have * required| as real;
  }

  // ---------------------------------------------------------------------
  // The experience term

  lemma ExperienceTermRange(have: int, target: int)
    ensures 0.0 <= ExperienceTerm(have, target) <= 20.0
  {
    var d := AtLeastOne(target) as real;
    var gap := Abs(have - target) as real / d;
    assert gap * d == Abs(have - target) as real;
    assert gap >= 0.0;
  }

  /** The experience term is full exactly when the years agree. */
  lemma ExperienceTermFull(have: int, target: int)
    ensures ExperienceTerm(have, target) == 20.0 <==> have == target
  {
    var d := AtLeastOne(target) as real;
    var gap := Abs(have - target) as real / d;
    assert gap * d == Abs(have - target) as real;
  }

  /** The experience term vanishes exactly once the gap reaches
      `max(target, 1)` years; this holds for any target, negative included. */
  lemma ExperienceTermZero(have: int, target: int)
    ensures ExperienceTerm(have, target) == 0.0 <==> Abs(have - target) >= AtLeastOne(target)
  {
    var d := AtLeastOne(target) as real;
    var gap := Abs(have - target) as real / d;
    assert gap * d == Abs(have - target) as real;
    assert gap >= 1.0 <==> Abs(have - target) as real >= d;
  }

  // ---------------------------------------------------------------------
  // Rounding

  /** Rounding moves a value by at most half a hundredth. */
  lemma Round2Error(x: real)
    ensures x - 0.005 <= Round2(x) <= x + 0.005
  {
  }

  /** Rounding keeps [0, 100]. */
  lemma Round2Range(x: real)
    requires 0.0 <= x <= 100.0
    ensures 0.0 <= Round2(x) <= 100.0
  {
  }

  /** Values that already have two decimals are left alone. */
  lemma Round2Exact(n: int)
    ensures Round2(n as real / 100.0) == n as real / 100.0
  {
    var x := n as real / 100.0;
    assert x * 100.0 == n as real;
  }

  // ---------------------------------------------------------------------
  // The total

  lemma RawScoreRange(c: Resume, k: Criteria)
    ensures 0.0 <= RawScore(c, k) <= 100.0
  {
    SkillTermRange(SkillSet(c.skills), SkillSet(k.skills));
    ExperienceTermRange(c.experience, k.experience);
  }

  /** Every score lies in [0, 100]. */
  lemma ScoreRange(c: Resume, k: Criteria)
    ensures 0.0 <= Score(c, k) <= 100.0
  {
    RawScoreRange(c, k);
    Round2Range(RawScore(c, k));
  }

  /** The unrounded score is 100 exactly when the qualification matches
      ignoring case, every required skill is present and the years agree. */
  lemma RawScorePerfect(c: Resume, k: Criteria)
    ensures RawScore(c, k) == 100.0 <==>
      && Lower(c.qualification) == Lower(k.qualification)
      && SkillSet(k.skills) <= SkillSet(c.skills)
      && c.experience == k.experience
  {
    SkillTermRange(SkillSet(c.skills), SkillSet(k.skills));
    ExperienceTermRange(c.experience, k.experience);
    SkillTermFull(SkillSet(c.skills), SkillSet(k.skills));
    ExperienceTermFull(c.experience, k.experience);
  }

  /** A perfect match scores exactly 100.00. */
  lemma ScorePerfect(c: Resume, k: Criteria)
    requires Lower(c.qualification) == Lower(k.qualification)
    requires SkillSet(k.skills) <= SkillSet(c.skills)
    requires c.experience == k.experience
    ensures Score(c, k) == 100.0
  {
    RawScorePerfect(c, k);
    Round2Exact(10000);
  }

  /** A candidate with the wrong qualification, none of the skills and a gap
      of at least `max(target, 1)` years scores 0.00. */
  lemma ScoreNothing(c: Resume, k: Criteria)
    requires Lower(c.qualification) != Lower(k.qualification)
    requires SkillSet(c.skills) * SkillSet(k.skills) == {}
    requires Abs(c.experience - k.experience) >= AtLeastOne(k.experience)
    ensures Score(c, k) == 0.0
  {
    SkillTermNone(SkillSet(c.skills), SkillSet(k.skills));
    ExperienceTermZero(c.experience, k.experience);
    Round2Exact(0);
  }

  /** Changing the case of the candidate's qualification and skills does
      not change the score. */
  lemma ScoreIgnoresCandidateCase(c: Resume, k: Criteria)
    ensures Score(c.(qualification := Upper(c.qualification), skills := Upper(c.skills)), k) == Score(c, k)
    ensures Score(c.(qualification := Lower(c.qualification), skills := Lower(c.skills)), k) == Score(c, k)
  {
    QualificationIgnoresCase(c.qualification, k.qualification);
    SkillSetIgnoresCase(c.skills);
    var up := c.(qualification := Upper(c.qualification), skills := Upper(c.skills));
    var low := c.(qualification := Lower(c.qualification), skills := Lower(c.skills));
    assert RawScore(up, k) == RawScore(c, k);
    assert RawScore(low, k) == RawScore(c, k);
  }

  /** Changing the case of the criteria's qualification and skills does not
      change the score. */
  lemma ScoreIgnoresCriteriaCase(c: Resume, k: Criteria)
    ensures Score(c, k.(qualification := Upper(k.qualification), skills := Upper(k.skills))) == Score(c, k)
    ensures Score(c, k.(qualification := Lower(k.qualification), skills := Lower(k.skills))) == Score(c, k)
  {
    QualificationIgnoresCase(c.qualification, k.qualification);
    SkillSetIgnoresCase(k.skills);
    var up := k.(qualification := Upper(k.qualification), skills := Upper(k.skills));
    var low := k.(qualification := Lower(k.qualification), skills := Lower(k.skills));
    assert RawScore(c, up) == RawScore(c, k);
    assert RawScore(c, low) == RawScore(c, k);
  }

  // ---------------------------------------------------------------------
  // Worked examples

  /** A skills string whose lower-cased form is the comma-join of
      comma-free pieces has exactly those pieces as its skill set. */
  lemma SkillSetOfPieces(skills: string, parts: seq<string>)
    requires |parts| >= 1
    requires forall i :: 0 <= i < |parts| ==> ',' !in parts[i]
    requires Lower(skills) == JoinComma(parts)
    ensures SkillSet(skills) == set t | t in parts
  {
    SplitJoin(parts);
  }

  lemma ExampleRequiredText()
    ensures Lower("python,flutter") == "python,flutter"
  {
    LowerOfLowercase("python,flutter");
  }

  lemma ExampleRequiredPieces()
    ensures JoinComma(["python", "flutter"]) == "python,flutter"
    ensures forall i :: 0 <= i < 2 ==> ',' !in ["python", "flutter"][i]
  {
  }

  lemma ExampleRequiredSkills()
    ensures SkillSet("python,flutter") == {"python", "flutter"}
  {
    var parts: seq<string> := ["python", "flutter"];
    ExampleRequiredText();
    ExampleRequiredPieces();
    SkillSetOfPieces("python,flutter", parts);
    SetOfTwo(parts);
  }

  lemma ExampleCandidateText()
    ensures Lower("python,flutter,java") == "python,flutter,java"
  {
    LowerOfLowercase("python,flutter,java");
  }

  lemma ExampleCandidatePieces()
    ensures JoinComma(["python", "flutter", "java"]) == "python,flutter,java"
    ensures forall i :: 0 <= i < 3 ==> ',' !in ["python", "flutter", "java"][i]
  {
  }

  lemma ExampleCandidateSkills()
    ensures SkillSet("python,flutter,java") == {"python", "flutter", "java"}
  {
    var parts: seq<string> := ["python", "flutter", "java"];
    ExampleCandidateText();
    ExampleCandidatePieces();
    SkillSetOfPieces("python,flutter,java", parts);
    SetOfThree(parts);
  }

  lemma SetOfTwo(p: seq<string>)
    requires |p| == 2
    ensures (set t | t in p) == {p[0], p[1]}
  {
  }

  lemma SetOfThree(p: seq<string>)
    requires |p| == 3
    ensures (set t | t in p) == {p[0], p[1], p[2]}
  {
  }

  lemma ExampleQualifications()
    ensures Lower("Bachelor") == Lower("bachelor")
    ensures Lower("Master") != Lower("bachelor")
  {
    assert Lower("Master")[0] == 'm';
  }

  lemma ExampleJavaSkills()
    ensures SkillSet("java") == {"java"}
  {
    LowerOfLowercase("java");
    SplitCommaFree("java");
  }

  lemma ExampleDisjointSkills()
    ensures {"java"} * {"python", "flutter"} == {}
  {
    assert |"java"| != |"python"| && |"java"| != |"flutter"|;
  }

  /** Criteria ("bachelor", "python,flutter", 2) against any Bachelor with
      python, flutter and java and two years: 40 + 40 + 20 = 100.00. */
  lemma ExamplePerfectCandidate(c: Resume, k: Criteria)
    requires c.qualification == "Bachelor" && c.skills == "python,flutter,java" && c.experience == 2
    requires k.qualification == "bachelor" && k.skills == "python,flutter" && k.experience == 2
    ensures Score(c, k) == 100.0
  {
    ExampleQualifications();
    ExampleRequiredSkills();
    ExampleCandidateSkills();
    ScorePerfect(c, k);
  }

  /** The same criteria against any Master with only java and five years:
      0 + 0 + 20 * max(0, 1 - 3/2) = 0.00. */
  lemma ExampleUnsuitedCandidate(c: Resume, k: Criteria)
    requires c.qualification == "Master" && c.skills == "java" && c.experience == 5
    requires k.qualification == "bachelor" && k.skills == "python,flutter" && k.experience == 2
    ensures Score(c, k) == 0.0
  {
    ExampleQualifications();
    ExampleRequiredSkills();
    ExampleJavaSkills();
    ExampleDisjointSkills();
    ScoreNothing(c, k);
  }
}
