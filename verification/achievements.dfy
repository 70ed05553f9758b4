/** The achievement list of `src/components/sections/AchievementsSection.tsx`:
    the literal data, the first-match colour tier of a position string, and the
    summary counts the section shows beside the list. */
module Achievements {
  import opened Text
  import LanguagePrefs
  import CvLayout

  /** A text given in both languages. */
  datatype Localized = Localized(en: string, id: string)

  function In(t: Localized, lang: LanguagePrefs.LangCode): string {
    match lang
    case En => t.en
    case Id => t.id
  }

  datatype Achievement = Achievement(
    title: Localized,
    organization: Localized,
    position: Localized,
    date: string,
    level: Localized)

  const AchievementList: seq<Achievement> := [
    Achievement(
      Localized("Student Competency Competition (LKS) 2025", "Lomba Kompetensi Siswa (LKS) 2025"),
      Localized("Samarinda City Government", "Pemerintah Kota Samarinda"),
      Localized("3rd Place", "Juara 3"),
      "May 2025",
      Localized("Web Technology - City Level", "Teknologi Web - Tingkat Kota")),
    Achievement(
      Localized("Sentech in Borneo SMKN 7 Samarinda Classmeet", "Sentech in Borneo SMKN 7 Samarinda Classmeet"),
      Localized("SMKN 7 Samarinda", "SMKN 7 Samarinda"),
      Localized("1st Place", "Juara 1"),
      "December 2025",
      Localized("Web Design", "Desain Web")),
    Achievement(
      Localized("Ruangguru Science Competition (KSR) 2025", "Kompetisi Sains Ruangguru (KSR) 2025"),
      Localized("Ruangguru", "Ruangguru"),
      Localized("Top 200", "Top 200"),
      "September 2024",
      Localized("Biology SMA", "Biologi SMA")),
    Achievement(
      Localized("CBP SummerFest 2025 Bank Indonesia East Kalimantan", "CBP SummerFest 2025 Bank Indonesia Prov. Kalimantan Timur"),
      Localized("Bank Indonesia East Kalimantan", "Bank Indonesia Prov. Kalimantan Timur"),
      Localized("Honorable Mention 1", "Honorable Mention 1"),
      "August 2024",
      Localized("Creative Content - Provincial Level", "Konten Kreatif - Tingkat Provinsi")),
    Achievement(
      Localized("CBP SummerFest 2025 Bank Indonesia East Kalimantan", "CBP SummerFest 2025 Bank Indonesia Prov. Kalimantan Timur"),
      Localized("Bank Indonesia East Kalimantan", "Bank Indonesia Prov. Kalimantan Timur"),
      Localized("3rd Place", "Juara 3"),
      "August 2024",
      Localized("Creative Content - City Level", "Konten Kreatif - Tingkat Kota"))]

  // ---------------------------------------------------------------------------
  // Tiers

  /** The four branches of `getPositionColor`. */
  datatype Tier = First | Second | Third | Other

  predicate IsFirst(position: string) {
    Contains(position, "1st") || Contains(position, "Juara 1")
  }

  predicate IsSecond(position: string) {
    Contains(position, "2nd") || Contains(position, "Juara 2")
  }

  predicate IsThird(position: string) {
    Contains(position, "3rd") || Contains(position, "Juara 3")
  }

  /** The branch `getPositionColor` takes: the first tier whose markers occur. */
  function PositionTier(position: string): (t: Tier)
    ensures t == First <==> IsFirst(position)
    ensures t == Second <==> !IsFirst(position) && IsSecond(position)
    ensures t == Third <==> !IsFirst(position) && !IsSecond(position) && IsThird(position)
    ensures t == Other <==> !IsFirst(position) && !IsSecond(position) && !IsThird(position)
  {
    if IsFirst(position) then First
    else if IsSecond(position) then Second
    else if IsThird(position) then Third
    else Other
  }

  /** The gradient classes of each tier. */
  function TierColor(t: Tier): string {
    match t
    case First => "from-yellow-500 to-yellow-600"
    case Second => "from-gray-400 to-gray-500"
    case Third => "from-orange-500 to-orange-600"
    case Other => "from-blue-500 to-blue-600"
  }

  /** `getPositionColor(position)`: yellow, gray, orange or blue, each tier with
      its own colour, so the colour tells the tier. */
  function PositionColor(position: string): (r: string)
    ensures r == TierColor(PositionTier(position))
    ensures forall t :: TierColor(t) == r ==> t == PositionTier(position)
  {
    TierColorInjective();
    TierColor(PositionTier(position))
  }

  lemma TierColorInjective()
    ensures forall a, b :: TierColor(a) == TierColor(b) ==> a == b
  {
    assert TierColor(First)[5] == 'y' && TierColor(Second)[5] == 'g';
    assert TierColor(Third)[5] == 'o' && TierColor(Other)[5] == 'b';
  }

  /** The CV medal and the section colour agree on the first two tiers: gold
      exactly for the yellow tier and silver exactly for the gray one. */
  lemma MedalAgreesWithTier(position: string)
    ensures CvLayout.MedalFor(position) == CvLayout.Gold <==> PositionTier(position) == First
    ensures CvLayout.MedalFor(position) == CvLayout.Silver <==> PositionTier(position) == Second
    ensures CvLayout.MedalFor(position) == CvLayout.Bronze <==> PositionTier(position) in {Third, Other}
  {
  }

  // ---------------------------------------------------------------------------
  // The positions in the data

  /** A pattern with a character the position lacks does not occur in it. */
  lemma Lacks(position: string, pat: string, k: nat)
    requires k < |pat| && pat[k] !in position
    ensures !Contains(position, pat)
  {
    ContainsChars(position, pat);
  }

  lemma NotFirst(position: string, k: nat, j: nat)
    requires k < 3 && "1st"[k] !in position && j < 7 && "Juara 1"[j] !in position
    ensures !IsFirst(position)
  {
    Lacks(position, "1st", k);
    Lacks(position, "Juara 1", j);
  }

  lemma NotSecond(position: string, k: nat, j: nat)
    requires k < 3 && "2nd"[k] !in position && j < 7 && "Juara 2"[j] !in position
    ensures !IsSecond(position)
  {
    Lacks(position, "2nd", k);
    Lacks(position, "Juara 2", j);
  }

  lemma NotThird(position: string, k: nat, j: nat)
    requires k < 3 && "3rd"[k] !in position && j < 7 && "Juara 3"[j] !in position
    ensures !IsThird(position)
  {
    Lacks(position, "3rd", k);
    Lacks(position, "Juara 3", j);
  }

  lemma FirstPlaceTier()
    ensures PositionTier("1st Place") == First
  {
    assert OccursAt("1st Place", "1st", 0);
  }

  lemma JuaraOneTier()
    ensures PositionTier("Juara 1") == First
  {
    assert OccursAt("Juara 1", "Juara 1", 0);
  }

  lemma ThirdPlaceTier()
    ensures PositionTier("3rd Place") == Third
  {
    assert OccursAt("3rd Place", "3rd", 0);
    NotFirst("3rd Place", 0, 6);
    NotSecond("3rd Place", 0, 6);
  }

  lemma JuaraThreeTier()
    ensures PositionTier("Juara 3") == Third
  {
    assert OccursAt("Juara 3", "Juara 3", 0);
    NotFirst("Juara 3", 0, 6);
    NotSecond("Juara 3", 0, 6);
  }

  lemma TopTier()
    ensures PositionTier("Top 200") == Other
  {
    NotFirst("Top 200", 0, 0);
    NotSecond("Top 200", 1, 0);
    NotThird("Top 200", 0, 0);
  }

  /** "Honorable Mention 1" ends in a 1 but names no place. */
  lemma HonorableMentionTier()
    ensures PositionTier("Honorable Mention 1") == Other
  {
    HonorableMentionNotFirst();
    HonorableMentionNotSecond();
    HonorableMentionNotThird();
  }

  lemma HonorableMentionNotFirst()
    ensures !IsFirst("Honorable Mention 1")
  {
    NotFirst("Honorable Mention 1", 1, 0);
  }

  lemma HonorableMentionNotSecond()
    ensures !IsSecond("Honorable Mention 1")
  {
    NotSecond("Honorable Mention 1", 0, 0);
  }

  lemma HonorableMentionNotThird()
    ensures !IsThird("Honorable Mention 1")
  {
    NotThird("Honorable Mention 1", 0, 0);
  }

  /** The tier of every achievement in one language. */
  function Tiers(achievements: seq<Achievement>, lang: LanguagePrefs.LangCode): (r: seq<Tier>)
    ensures |r| == |achievements|
    ensures forall i :: 0 <= i < |r| ==> r[i] == PositionTier(In(achievements[i].position, lang))
  {
    seq(|achievements|, i requires 0 <= i < |achievements| => PositionTier(In(achievements[i].position, lang)))
  }

  /** The tiers of the data, in order: third, first, other, other, third. */
  const DataTierList := [Third, First, Other, Other, Third]

  lemma DataTierAt(i: nat, lang: LanguagePrefs.LangCode)
    requires i < 5
    ensures PositionTier(In(AchievementList[i].position, lang)) == DataTierList[i]
  {
    var p := AchievementList[i].position;
    if i == 0 || i == 4 {
      assert p == Localized("3rd Place", "Juara 3");
      ThirdPlaceTier();
      JuaraThreeTier();
    } else if i == 1 {
      assert p == Localized("1st Place", "Juara 1");
      FirstPlaceTier();
      JuaraOneTier();
    } else if i == 2 {
      assert p == Localized("Top 200", "Top 200");
      TopTier();
    } else {
      assert p == Localized("Honorable Mention 1", "Honorable Mention 1");
      HonorableMentionTier();
    }
  }

  lemma DataTiers(lang: LanguagePrefs.LangCode)
    ensures Tiers(AchievementList, lang) == DataTierList
  {
    var ts := Tiers(AchievementList, lang);
    DataTierAt(0, lang);
    DataTierAt(1, lang);
    DataTierAt(2, lang);
    DataTierAt(3, lang);
    DataTierAt(4, lang);
    FiveOf(ts, Third, First, Other, Other, Third);
  }

  lemma FiveOf(s: seq<Tier>, a: Tier, b: Tier, c: Tier, d: Tier, e: Tier)
    requires |s| == 5 && s[0] == a && s[1] == b && s[2] == c && s[3] == d && s[4] == e
    ensures s == [a, b, c, d, e]
  {
  }

  /** Each achievement's English and Indonesian position fall in the same tier,
      so the colours do not change with the language. */
  lemma TiersAgreeAcrossLanguages()
    ensures Tiers(AchievementList, LanguagePrefs.En) == Tiers(AchievementList, LanguagePrefs.Id)
  {
    DataTiers(LanguagePrefs.En);
    DataTiers(LanguagePrefs.Id);
  }

  // ---------------------------------------------------------------------------
  // The summary

  /** The four summary cards: total, first places, third places, others. */
  datatype Summary = Summary(total: nat, firsts: nat, thirds: nat, others: nat)

  /** The numbers the section writes out. */
  const ShownSummary := Summary(5, 1, 2, 2)

  /** The summary as counted from a list, in one language. */
  function SummaryOf(achievements: seq<Achievement>, lang: LanguagePrefs.LangCode): (s: Summary)
    ensures s.total == |achievements|
    ensures s.firsts + s.thirds + s.others <= s.total
    ensures s.firsts == multiset(Tiers(achievements, lang))[First]
    ensures s.thirds == multiset(Tiers(achievements, lang))[Third]
    ensures s.others == multiset(Tiers(achievements, lang))[Other]
  {
    var m := multiset(Tiers(achievements, lang));
    MultisetCountsBound(m);
    Summary(|achievements|, m[First], m[Third], m[Other])
  }

  /** Every element of a multiset of tiers is in exactly one tier. */
  lemma {:induction false} MultisetCountsBound(m: multiset<Tier>)
    ensures m[First] + m[Second] + m[Third] + m[Other] == |m|
  {
    if |m| > 0 {
      var t :| t in m;
      MultisetCountsBound(m - multiset{t});
      var rest := m - multiset{t};
      assert m == rest + multiset{t};
      assert |m| == |rest| + 1;
      assert m[t] == rest[t] + 1;
      assert forall x :: x != t ==> m[x] == rest[x];
    } else {
      assert m == multiset{};
    }
  }

  /** The hard-coded summary is the one the data gives, in either language. */
  lemma ShownSummaryMatchesData(lang: LanguagePrefs.LangCode)
    ensures SummaryOf(AchievementList, lang) == ShownSummary
  {
    DataTiers(lang);
    DataTierCounts();
  }

  lemma DataTierCounts()
    ensures multiset(DataTierList)[First] == 1
    ensures multiset(DataTierList)[Third] == 2
    ensures multiset(DataTierList)[Other] == 2
  {
    var ts := [Third, First, Other, Other, Third];
    assert DataTierList == ts;
    assert Occurrences(ts, First) == 1;
    assert Occurrences(ts, Third) == 2;
    assert Occurrences(ts, Other) == 2;
  }

  /** How often `t` occurs in `ts`, counted one element at a time. */
  function Occurrences(ts: seq<Tier>, t: Tier): (n: nat)
    ensures n == multiset(ts)[t]
    decreases |ts|
  {
    if |ts| == 0 then 0
    else
      assert ts == [ts[0]] + ts[1..];
      (if ts[0] == t then 1 else 0) + Occurrences(ts[1..], t)
  }
}
