/** Scoring one internship posting against one preference record: ten points
    per required skill the requester has, then fixed bonuses for city, work
    mode, sector and education level. */
module Scoring {
  import opened Sequences

  /** The preference fields the scorer reads. Every list is present (possibly
      empty); the fields the scorer never reads are not modelled. */
  datatype Preferences = Preferences(
    technicalSkills: seq<string>,
    softSkills: seq<string>,
    preferredCities: seq<string>,
    workMode: string,
    sectorInterest: seq<string>,
    educationLevel: string)

  /** One catalog entry, with all of its fields. */
  datatype Posting = Posting(
    id: string,
    title: string,
    company: string,
    location: string,
    duration: string,
    stipend: string,
    description: string,
    requiredSkills: seq<string>,
    sector: string,
    workMode: string,
    educationLevel: string)

  /** A posting as returned to the client: the posting itself, untouched,
      plus its score and the required skills that matched. */
  datatype Recommendation = Recommendation(
    posting: Posting,
    score: int,
    matchingSkills: seq<string>)

  const SkillPoints := 10
  const CityPoints := 5
  const ModePoints := 3
  const SectorPoints := 5
  const EducationPoints := 2

  /** The wildcard a requester may give as a city or a work mode. */
  const Wildcard := "any"

  predicate IsUpper(c: char) {
    'A' <= c <= 'Z'
  }

  function LowerChar(c: char): char {
    if IsUpper(c) then (c as int + 32) as char else c
  }

  /** ASCII lower-casing of a city name. */
  function ToLower(s: string): (r: string)
    ensures |r| == |s|
    ensures forall i :: 0 <= i < |r| ==> !IsUpper(r[i])
    ensures forall i :: 0 <= i < |s| && !IsUpper(s[i]) ==> r[i] == s[i]
    ensures forall i :: 0 <= i < |s| && IsUpper(s[i]) ==> r[i] as int == s[i] as int + 32
  {
    seq(|s|, i requires 0 <= i < |s| => LowerChar(s[i]))
  }

  /** The requester's skills: technical skills followed by soft skills. */
  function UserSkills(prefs: Preferences): seq<string> {
    prefs.technicalSkills + prefs.softSkills
  }

  /** The test applied to each required skill. */
  function InSkills(skills: seq<string>): string -> bool {
    skill => skill in skills
  }

  /** The required skills found among `skills`, in required-skill order,
      each occurrence of a required skill considered on its own. */
  function MatchingSkills(required: seq<string>, skills: seq<string>): seq<string> {
    Filter(InSkills(skills), required)
  }

  predicate CityMatches(prefs: Preferences, p: Posting) {
    ToLower(p.location) in prefs.preferredCities || Wildcard in prefs.preferredCities
  }

  predicate ModeMatches(prefs: Preferences, p: Posting) {
    prefs.workMode == p.workMode || prefs.workMode == Wildcard
  }

  predicate SectorMatches(prefs: Preferences, p: Posting) {
    p.sector in prefs.sectorInterest
  }

  predicate EducationMatches(prefs: Preferences, p: Posting) {
    prefs.educationLevel == p.educationLevel
  }

  function Bonus(matches: bool, points: int): int {
    if matches then points else 0
  }

  /** The additive scoring rule. A score is never negative and never exceeds
      ten points per required skill plus the fifteen bonus points. */
  function Score(prefs: Preferences, p: Posting): (r: int)
    ensures 0 <= r <= SkillPoints * |p.requiredSkills| + CityPoints + ModePoints
                      + SectorPoints + EducationPoints
  {
    SkillPoints * |MatchingSkills(p.requiredSkills, UserSkills(prefs))|
    + Bonus(CityMatches(prefs, p), CityPoints)
    + Bonus(ModeMatches(prefs, p), ModePoints)
    + Bonus(SectorMatches(prefs, p), SectorPoints)
    + Bonus(EducationMatches(prefs, p), EducationPoints)
  }

  /** What the scorer emits for one posting: the posting itself, unchanged,
      the required skills the requester has, and a score of ten points per
      reported skill plus the bonuses. */
  function Scored(prefs: Preferences, p: Posting): (r: Recommendation)
    ensures r.posting == p
    ensures forall s :: s in r.matchingSkills ==> s in p.requiredSkills && s in UserSkills(prefs)
    ensures r.score - SkillPoints * |r.matchingSkills|
              == Bonus(CityMatches(prefs, p), CityPoints) + Bonus(ModeMatches(prefs, p), ModePoints)
                 + Bonus(SectorMatches(prefs, p), SectorPoints)
                 + Bonus(EducationMatches(prefs, p), EducationPoints)
  {
    MatchingSkillsExact(p.requiredSkills, UserSkills(prefs));
    Recommendation(p, Score(prefs, p), MatchingSkills(p.requiredSkills, UserSkills(prefs)))
  }

  /** Scores one posting step by step: a running total and a list of matched
      skills that grows as the required skills are walked in order, then the
      four bonuses. */
  method ScorePosting(prefs: Preferences, p: Posting) returns (r: Recommendation)
    ensures r.posting == p
    ensures r.matchingSkills == MatchingSkills(p.requiredSkills, UserSkills(prefs))
    ensures r.score == SkillPoints * |r.matchingSkills|
                       + (if CityMatches(prefs, p) then CityPoints else 0)
                       + (if ModeMatches(prefs, p) then ModePoints else 0)
                       + (if SectorMatches(prefs, p) then SectorPoints else 0)
                       + (if EducationMatches(prefs, p) then EducationPoints else 0)
    ensures r == Scored(prefs, p)
  {
    var score := 0;
    var matching: seq<string> := [];
    var userSkills := prefs.technicalSkills + prefs.softSkills;
    var required := p.requiredSkills;
    var i := 0;
    while i < |required|
      invariant 0 <= i <= |required|
      invariant matching == MatchingSkills(required[..i], userSkills)
      invariant score == SkillPoints * |matching|
    {
      var skill := required[i];
      assert required[..i + 1][..i] == required[..i];
      if skill in userSkills {
        score := score + SkillPoints;
        matching := matching + [skill];
      }
      i := i + 1;
    }
    assert required[..|required|] == required;

    if ToLower(p.location) in prefs.preferredCities || Wildcard in prefs.preferredCities {
      score := score + CityPoints;
    }
    if prefs.workMode == p.workMode || prefs.workMode == Wildcard {
      score := score + ModePoints;
    }
    if p.sector in prefs.sectorInterest {
      score := score + SectorPoints;
    }
    if prefs.educationLevel == p.educationLevel {
      score := score + EducationPoints;
    }
    r := Recommendation(p, score, matching);
  }

  /** The matching skills are exactly the required skills the requester has:
      each such skill as often as it is required, no other, in required-skill
      order. */
  lemma MatchingSkillsExact(required: seq<string>, skills: seq<string>)
    ensures forall s :: s in MatchingSkills(required, skills) <==> s in required && s in skills
    ensures forall s :: multiset(MatchingSkills(required, skills))[s]
                          == if s in skills then multiset(required)[s] else 0
    ensures IsSubsequence(MatchingSkills(required, skills), required)
  {
    forall s ensures s in MatchingSkills(required, skills) <==> s in required && s in skills {
      FilterMembership(InSkills(skills), required, s);
    }
    forall s ensures multiset(MatchingSkills(required, skills))[s]
                       == if s in skills then multiset(required)[s] else 0 {
      FilterCount(InSkills(skills), required, s);
    }
    FilterIsSubsequence(InSkills(skills), required);
  }

  /** A posting scores above zero exactly when at least one criterion holds. */
  lemma ScorePositiveIff(prefs: Preferences, p: Posting)
    ensures Score(prefs, p) > 0 <==>
      (exists s :: s in p.requiredSkills && s in UserSkills(prefs))
      || CityMatches(prefs, p) || ModeMatches(prefs, p)
      || SectorMatches(prefs, p) || EducationMatches(prefs, p)
  {
    MatchingSkillsExact(p.requiredSkills, UserSkills(prefs));
    var m := MatchingSkills(p.requiredSkills, UserSkills(prefs));
    if m != [] {
      assert m[0] in m;
    }
  }
}
