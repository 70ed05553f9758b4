/** The language preference of `src/contexts/LanguageContext.tsx`: the two
    languages, the translation tables and `t`, the preference kept under
    `preferred-language` in local storage, restored on mount and written by
    `setLanguage`. Local storage is a map passed in and returned. */
module LanguagePrefs {
  import opened Wrappers
  import opened Seqs

  /** The `code` of a language: `'en' | 'id'`. */
  datatype LangCode = En | Id

  /** The code as it is stored. */
  function CodeString(c: LangCode): string {
    match c
    case En => "en"
    case Id => "id"
  }

  datatype Language = Language(code: LangCode, name: string, flag: string)

  /** The language list; the first entry is the initial language. */
  const Languages: seq<Language> := [
    Language(En, "English", "\U{1F1FA}\U{1F1F8}"),
    Language(Id, "Indonesian", "\U{1F1EE}\U{1F1E9}")]

  // ---------------------------------------------------------------------------
  // Translations

  // The tables, group by group as the source comments divide them.

  const EnglishNavigation: map<string, string> := map[
    "nav.home" := "Home",
    "nav.projects" := "Projects",
    "nav.blog" := "Blog",
    "nav.about" := "About",
    "nav.achievements" := "Achievements",
    "nav.certificates" := "Certificates",
    "nav.support" := "Support"]

  const EnglishSplash: map<string, string> := map[
    "splash.welcome" := "Welcome",
    "splash.selectLanguage" := "Select your preferred language",
    "splash.continue" := "Continue",
    "splash.loading" := "Loading..."]

  const EnglishProfile: map<string, string> := map[
    "profile.bio" := "Just 17 years a Passionate",
    "profile.experience" := "having 2+ years of Experiences",
    "profile.basedIn" := "Based in East Kalimantan, Indonesia"]

  const EnglishRoles: map<string, string> := map[
    "roles.frontend" := "Front-End Developer",
    "roles.ui" := "UI Designer",
    "roles.photographer" := "Photographer",
    "roles.videographer" := "Videographer",
    "roles.creative" := "Creative Director",
    "roles.prompt" := "Prompt Engineer",
    "roles.ai" := "AI Engineer",
    "roles.freelancer" := "Freelancer"]

  const EnglishSections: map<string, string> := map[
    "section.whatCanIDo" := "What I Can Do?",
    "section.techStack" := "Tech Stack",
    "section.experience" := "Experience",
    "section.education" := "Education",
    "section.uniqueThings" := "Unique Things About Me",
    "section.recentProjects" := "Recent Projects"]

  const EnglishExperience: map<string, string> := map[
    "exp.webDeveloper" := "Web Developer Intern",
    "exp.education" := "Dinas Pendidikan dan Kebudayaan Prov. Kalimantan Timur",
    "exp.period" := "June 2025",
    "exp.description" := "Tasked with creating a website application using Next.JS and Prisma."]

  const EnglishEducation: map<string, string> := map[
    "edu.school" := "SMK Negeri 7 Samarinda",
    "edu.program" := "Software and Game Development",
    "edu.period" := "June 2023 - June 2026",
    "edu.status" := "Currently Enrolled"]

  const EnglishSkills: map<string, string> := map[
    "skills.webDesign" := "Web Design",
    "skills.uiDesign" := "UI Design",
    "skills.photography" := "Photography",
    "skills.videography" := "Videography",
    "skills.creativeDirector" := "Creative Director",
    "skills.aiEngineering" := "AI Engineering",
    "skills.frontendDev" := "FrontEnd Development"]

  const EnglishUnique: map<string, string> := map[
    "unique.coding" := "Learned coding since 1st Grade Junior High School.",
    "unique.otaku" := "An Otaku & Kpopers.",
    "unique.coffee" := "Loves to drink Coffee."]

  const EnglishCommon: map<string, string> := map[
    "common.viewMore" := "View More",
    "common.close" := "Close",
    "common.loading" := "Loading..."]

  const IndonesianNavigation: map<string, string> := map[
    "nav.home" := "Beranda",
    "nav.projects" := "Proyek",
    "nav.blog" := "Blog",
    "nav.about" := "Tentang",
    "nav.achievements" := "Pencapaian",
    "nav.certificates" := "Sertifikat",
    "nav.support" := "Dukung"]

  const IndonesianSplash: map<string, string> := map[
    "splash.welcome" := "Selamat Datang",
    "splash.selectLanguage" := "Pilih bahasa yang Anda inginkan",
    "splash.continue" := "Lanjutkan",
    "splash.loading" := "Memuat..."]

  const IndonesianProfile: map<string, string> := map[
    "profile.bio" := "Hanya 17 tahun seorang yang Bersemangat",
    "profile.experience" := "memiliki 2+ tahun Pengalaman",
    "profile.basedIn" := "Berlokasi di Kalimantan Timur, Indonesia"]

  const IndonesianRoles: map<string, string> := map[
    "roles.frontend" := "Front-End Developer",
    "roles.ui" := "UI Designer",
    "roles.photographer" := "Fotografer",
    "roles.videographer" := "Videografer",
    "roles.creative" := "Direktur Kreatif",
    "roles.prompt" := "Prompt Engineer",
    "roles.ai" := "AI Engineer",
    "roles.freelancer" := "Freelancer"]

  const IndonesianSections: map<string, string> := map[
    "section.whatCanIDo" := "Apa yang Bisa Saya Lakukan?",
    "section.techStack" := "Tech Stack",
    "section.experience" := "Pengalaman",
    "section.education" := "Pendidikan",
    "section.uniqueThings" := "Hal Unik Tentang Saya",
    "section.recentProjects" := "Proyek Terbaru"]

  const IndonesianExperience: map<string, string> := map[
    "exp.webDeveloper" := "Magang Web Developer",
    "exp.education" := "Dinas Pendidikan dan Kebudayaan Prov. Kalimantan Timur",
    "exp.period" := "Juni 2025",
    "exp.description" := "Bertugas membuat aplikasi website menggunakan Next.JS dan Prisma."]

  const IndonesianEducation: map<string, string> := map[
    "edu.school" := "SMK Negeri 7 Samarinda",
    "edu.program" := "Pengembangan Perangkat Lunak dan Gim",
    "edu.period" := "Juni 2023 - Juni 2026",
    "edu.status" := "Sedang Bersekolah"]

  const IndonesianSkills: map<string, string> := map[
    "skills.webDesign" := "Desain Web",
    "skills.uiDesign" := "Desain UI",
    "skills.photography" := "Fotografi",
    "skills.videography" := "Videografi",
    "skills.creativeDirector" := "Direktur Kreatif",
    "skills.aiEngineering" := "AI Engineering",
    "skills.frontendDev" := "Pengembangan FrontEnd"]

  const IndonesianUnique: map<string, string> := map[
    "unique.coding" := "Belajar coding sejak kelas 1 SMP.",
    "unique.otaku" := "Seorang Otaku & Kpopers.",
    "unique.coffee" := "Suka minum Kopi."]

  const IndonesianCommon: map<string, string> := map[
    "common.viewMore" := "Lihat Lebih",
    "common.close" := "Tutup",
    "common.loading" := "Memuat..."]

  /** The groups the tables are divided into, in the order they are listed. */
  datatype Group = Navigation | Splash | Profile | Roles | Sections | Experience | Education | Skills | Unique | Common

  const Groups: seq<Group> := [Navigation, Splash, Profile, Roles, Sections, Experience, Education, Skills, Unique, Common]

  /** One group of one language's table. */
  function GroupTable(c: LangCode, g: Group): map<string, string> {
    match g
    case Navigation => if c == En then EnglishNavigation else IndonesianNavigation
    case Splash => if c == En then EnglishSplash else IndonesianSplash
    case Profile => if c == En then EnglishProfile else IndonesianProfile
    case Roles => if c == En then EnglishRoles else IndonesianRoles
    case Sections => if c == En then EnglishSections else IndonesianSections
    case Experience => if c == En then EnglishExperience else IndonesianExperience
    case Education => if c == En then EnglishEducation else IndonesianEducation
    case Skills => if c == En then EnglishSkills else IndonesianSkills
    case Unique => if c == En then EnglishUnique else IndonesianUnique
    case Common => if c == En then EnglishCommon else IndonesianCommon
  }

  /** The union of the groups' tables, a later group's entry taking precedence. */
  function UnionOf(c: LangCode, gs: seq<Group>): map<string, string>
    decreases |gs|
  {
    if |gs| == 0 then map[] else UnionOf(c, gs[..|gs| - 1]) + GroupTable(c, gs[|gs| - 1])
  }

  /** The `en` and `id` tables: the union of their groups. */
  function Table(c: LangCode): map<string, string> {
    UnionOf(c, Groups)
  }

  /** `t(key)`: the entry of the current language's table when it is truthy
      (present and non-empty), the key itself otherwise. */
  function Translate(c: LangCode, key: string): (r: string)
    ensures key in Table(c) && Table(c)[key] != "" ==> r == Table(c)[key]
    ensures key in Table(c) && Table(c)[key] == "" ==> r == key
    ensures key !in Table(c) ==> r == key
  {
    LookupOr(Table(c), key)
  }

  /** `table[key] || key`. */
  function LookupOr(table: map<string, string>, key: string): (r: string)
    ensures key in table && table[key] != "" ==> r == table[key]
    ensures key in table && table[key] == "" ==> r == key
    ensures key !in table ==> r == key
  {
    if key in table && table[key] != "" then table[key] else key
  }

  /** Two tables with the same keys and only non-empty entries. */
  ghost predicate Parallel(en: map<string, string>, id: map<string, string>) {
    && (forall k :: k in en <==> k in id)
    && (forall k :: k in en ==> en[k] != "")
    && (forall k :: k in id ==> id[k] != "")
  }

  lemma ParallelUnion(en1: map<string, string>, id1: map<string, string>, en2: map<string, string>, id2: map<string, string>)
    requires Parallel(en1, id1) && Parallel(en2, id2)
    ensures Parallel(en1 + en2, id1 + id2)
  {
  }

  // The groups one at a time, in the order the tables list them.

  lemma NavigationParallel()
    ensures Parallel(EnglishNavigation, IndonesianNavigation)
  {
  }

  lemma SplashParallel()
    ensures Parallel(EnglishSplash, IndonesianSplash)
  {
  }

  lemma ProfileParallel()
    ensures Parallel(EnglishProfile, IndonesianProfile)
  {
  }

  lemma RolesParallel()
    ensures Parallel(EnglishRoles, IndonesianRoles)
  {
  }

  lemma SectionsParallel()
    ensures Parallel(EnglishSections, IndonesianSections)
  {
  }

  lemma ExperienceParallel()
    ensures Parallel(EnglishExperience, IndonesianExperience)
  {
  }

  lemma EducationParallel()
    ensures Parallel(EnglishEducation, IndonesianEducation)
  {
  }

  lemma SkillsParallel()
    ensures Parallel(EnglishSkills, IndonesianSkills)
  {
  }

  lemma UniqueParallel()
    ensures Parallel(EnglishUnique, IndonesianUnique)
  {
  }

  lemma CommonParallel()
    ensures Parallel(EnglishCommon, IndonesianCommon)
  {
  }

  /** Each group of the two tables is parallel. */
  lemma GroupParallel(g: Group)
    ensures Parallel(GroupTable(En, g), GroupTable(Id, g))
  {
    if g.Navigation? || g.Splash? || g.Profile? || g.Roles? || g.Sections? {
      EarlyGroupParallel(g);
    } else {
      LateGroupParallel(g);
    }
  }

  lemma EarlyGroupParallel(g: Group)
    requires g.Navigation? || g.Splash? || g.Profile? || g.Roles? || g.Sections?
    ensures Parallel(GroupTable(En, g), GroupTable(Id, g))
  {
    match g
    case Navigation => NavigationParallel();
    case Splash => SplashParallel();
    case Profile => ProfileParallel();
    case Roles => RolesParallel();
    case Sections => SectionsParallel();
  }

  lemma LateGroupParallel(g: Group)
    requires !(g.Navigation? || g.Splash? || g.Profile? || g.Roles? || g.Sections?)
    ensures Parallel(GroupTable(En, g), GroupTable(Id, g))
  {
    match g
    case Experience => ExperienceParallel();
    case Education => EducationParallel();
    case Skills => SkillsParallel();
    case Unique => UniqueParallel();
    case Common => CommonParallel();
  }

  /** The union of parallel groups is parallel. */
  lemma {:induction false} UnionParallel(gs: seq<Group>)
    ensures Parallel(UnionOf(En, gs), UnionOf(Id, gs))
    decreases |gs|
  {
    if |gs| > 0 {
      var init := gs[..|gs| - 1];
      var g := gs[|gs| - 1];
      UnionParallel(init);
      GroupParallel(g);
      ParallelUnion(UnionOf(En, init), UnionOf(Id, init), GroupTable(En, g), GroupTable(Id, g));
    }
  }

  /** The two tables define the same keys, and no entry is empty. */
  lemma TablesParallel()
    ensures Parallel(Table(En), Table(Id))
  {
    UnionParallel(Groups);
  }

  /** A key is translated in one language exactly when it is in the other, and
      then `t` returns that language's non-empty entry; any other key is shown
      as itself in both. */
  lemma TranslatedInBoth(key: string)
    ensures key in Table(En) <==> key in Table(Id)
    ensures key in Table(En) ==> Translate(En, key) == Table(En)[key] != "" && Translate(Id, key) == Table(Id)[key] != ""
    ensures key !in Table(En) ==> Translate(En, key) == key && Translate(Id, key) == key
  {
    TablesParallel();
    ParallelLookup(Table(En), Table(Id), key);
  }

  lemma ParallelLookup(en: map<string, string>, id: map<string, string>, key: string)
    requires Parallel(en, id)
    ensures key in en <==> key in id
    ensures key in en ==> LookupOr(en, key) == en[key] != "" && LookupOr(id, key) == id[key] != ""
    ensures key !in en ==> LookupOr(en, key) == key && LookupOr(id, key) == key
  {
  }

  // ---------------------------------------------------------------------------
  // The stored preference

  const StorageKey := "preferred-language"

  /** The provider's state: the current language and the local storage. */
  datatype State = State(current: Language, storage: map<string, string>)

  function HasCode(saved: string): Language -> bool {
    (l: Language) => CodeString(l.code) == saved
  }

  /** `languages.find(l => l.code === saved)`. */
  function FindByCode(saved: string): (r: Option<Language>)
    ensures r.Some? ==> r.value in Languages && CodeString(r.value.code) == saved
    ensures r.None? ==> saved != "en" && saved != "id"
  {
    Find(Languages, HasCode(saved))
  }

  /** The restoring effect: a truthy saved code naming a listed language becomes
      current; anything else leaves the state as it was. Storage is only read. */
  function Restore(s: State): (r: State)
    ensures r.storage == s.storage
    ensures StorageKey !in s.storage || s.storage[StorageKey] == "" ==> r == s
    ensures StorageKey in s.storage && s.storage[StorageKey] in {"en", "id"} ==>
              r.current in Languages && CodeString(r.current.code) == s.storage[StorageKey]
    ensures StorageKey in s.storage && s.storage[StorageKey] !in {"en", "id"} ==> r == s
  {
    if StorageKey in s.storage && s.storage[StorageKey] != "" then
      match FindByCode(s.storage[StorageKey])
      case Some(l) => State(l, s.storage)
      case None => s
    else s
  }

  /** The provider after mounting on `storage`: English, then restored. */
  function Mount(storage: map<string, string>): (r: State)
    ensures r.storage == storage
    ensures r.current in Languages
    ensures StorageKey !in storage || storage[StorageKey] !in {"en", "id"} ==> r.current == Languages[0]
  {
    Restore(State(Languages[0], storage))
  }

  /** `setLanguage(language)`: the language becomes current and its code is
      stored under the preference key; no other key changes. */
  function SetLanguage(s: State, l: Language): (r: State)
    ensures r.current == l
    ensures StorageKey in r.storage && r.storage[StorageKey] == CodeString(l.code)
    ensures forall k :: k != StorageKey ==> (k in r.storage <==> k in s.storage)
    ensures forall k :: k != StorageKey && k in s.storage ==> r.storage[k] == s.storage[k]
  {
    State(l, s.storage[StorageKey := CodeString(l.code)])
  }

  /** Reads a stored code back. */
  function ParseCode(s: string): (r: Option<LangCode>)
    ensures r.Some? ==> CodeString(r.value) == s
    ensures r.None? ==> s != "en" && s != "id"
  {
    if s == "en" then Some(En) else if s == "id" then Some(Id) else None
  }

  /** Every code reads back as itself. */
  lemma ParseCodeString(c: LangCode)
    ensures ParseCode(CodeString(c)) == Some(c)
  {
    if c == Id {
      assert CodeString(c)[0] != "en"[0];
    }
  }

  /** The stored codes tell the languages apart. */
  lemma CodeStringInjective(a: LangCode, b: LangCode)
    requires CodeString(a) == CodeString(b)
    ensures a == b
  {
    ParseCodeString(a);
    ParseCodeString(b);
  }

  /** A later mount restores the language a `setLanguage` chose: the listed
      language with its code, which is the chosen one when it is listed. */
  lemma RestoreAfterSet(s: State, l: Language)
    ensures Mount(SetLanguage(s, l).storage).current.code == l.code
    ensures l in Languages ==> Mount(SetLanguage(s, l).storage).current == l
  {
    var r := Mount(SetLanguage(s, l).storage);
    CodeStringInjective(r.current.code, l.code);
  }
}
