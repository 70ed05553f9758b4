# Portfolio site core, modelled in Dafny

This project models the logic inside a personal portfolio site built with React and TypeScript. Most of the site is rendering. Underneath it are a handful of pure data transformations, which this model covers:

- **GitHub client** (`GitHub`). It builds the request headers. It keeps the public repositories, newest update first. It folds the user and the repositories into statistics: totals, distinct languages, and the six most-starred showcase repositories.
- **Project grid** (`ProjectsView`). It shows up to twelve showcase repositories taken from the same statistics. It also models the language colour dot and the topic chips.
- **Certificates** (`Certificates`):
  - the identifier, display name and URLs derived from a PDF file name;
  - the in-order filter over the known files, with the existence probe as an input;
  - the metadata record built from four pattern captures;
  - the thumbnail placeholder and the text placeholder.
- **PDF preview** (`PdfPreview`). It derives the preview title from the file name.
- **CV generator layout** (`CvLayout`). Drawing is left out. What remains is the small state the generator threads through its calls:
  - the vertical cursor and the page count, with the page-break rule;
  - the text-advance rule;
  - the horizontal badge cursor and its row wrapping;
  - the per-section caps, the project accents and the medal choice;
  - the alternating certificate bands;
  - the page labels and the download file name.
- **Achievements** (`Achievements`). It classifies a position string into a colour tier, taking the first tier that matches. It checks the literal achievement list against the summary numbers the section writes out.
- **Language preference** (`LanguagePrefs`). It models the two languages and the two translation tables, and `t` with its key fallback. It models the preference restored from local storage and written by `setLanguage`.
- **Theme** (`Theme`). It models how the light/dark mode is restored from storage or the system preference, and how it is mirrored into the document attribute and storage. It also models the toggle.

Two library modules sit underneath:

- `Seqs` models the JavaScript array operations used: `filter`, `slice`, a stable `sort` with a numeric comparator, `reduce` into a sum, `new Set` read back in order, and `find`.
- `Text` models the string operations used: `indexOf`/`includes`, `replace` of a literal pattern, `split`/`join` on one character, capitalisation, `trim`, and decimal rendering.

Every fetch, probe, rendering or measurement becomes an input to a pure function:

- an HTTP response (`GitHub.Response`);
- a probe outcome per file;
- a pattern capture per metadata key;
- the rendered preview URL;
- `splitTextToSize`;
- the measured text widths.

Local storage, the document attribute and the system colour preference are explicit state fields and parameters. Coordinates are exact `real`s. Timestamps are integers.

## Model

| member | source | states |
|---|---|---|
| GitHub.Headers | src/lib/github.ts:33-44 | `Accept` and `User-Agent` always carry their fixed values. `Authorization` is present exactly when a non-empty token is configured, and is then `Bearer <token>`. No other header is sent. |
| GitHub.HeadersCarryToken | src/lib/github.ts:39-41 | The configured token can be read back from the Authorization header after its `Bearer ` prefix. |
| GitHub.FetchRepos | src/lib/github.ts:46-78 | The result succeeds exactly on an ok response. A non-ok status fails with that status. A rejected fetch fails as a network error. On success the list is ordered by update time, newest first, and is a permutation of the public repositories of the body. |
| GitHub.FetchReposKeepsPublic | src/lib/github.ts:63-71 | Every public repository of the body is kept exactly as often as it occurs, and every private one is dropped. |
| GitHub.FetchUser | src/lib/github.ts:80-96 | The user comes back exactly on an ok response, and is that body. Anything else yields no user. |
| GitHub.SelectTop | src/lib/github.ts:114-117 | The selection has `min(n, k)` entries, where `k` is the number of showcase repositories in the input. A showcase repository is not a fork, not archived, and has a non-empty description. Each selected entry is one of them, taken no more often than it occurs. Entries are ordered by stars, most first. When at most `n` qualify, all of them are selected. No qualifying repository left out has more stars than one kept. |
| GitHub.GetStats | src/lib/github.ts:98-133 | Statistics exist exactly when both responses were ok. They hold the user and the filtered repository list. `totalRepos` is the list length. `languagesCount` is the number of `topLanguages`, which has no duplicates and is no longer than the list. `topRepos` is the top-six selection. |
| GitHub.StatsTotals | src/lib/github.ts:109-123 | The repository, star and fork totals are taken over exactly the public repositories of the response, whatever their order. |
| GitHub.LanguagesListed | src/lib/github.ts:111 | A language is in the deduplicated list exactly when it is the present, non-empty language of some repository. |
| GitHub.StatsLanguages | src/lib/github.ts:111-125 | A language is in `topLanguages` exactly when some repository of `allRepos` has it as a present, non-empty language. |
| GitHub.StatsTopRepos | src/lib/github.ts:114-117 | `topRepos` has six entries, or every showcase repository when fewer than six qualify. Each is a public showcase repository of the response, taken no more often than it occurs, and they are ordered by stars. No qualifying repository left out has more stars than one kept. |
| ProjectsView.FetchProjects | src/components/Projects.tsx:21-41 | Loading ends on every path. A null statistics result leaves the list empty. Otherwise the list has twelve entries, or every showcase repository of `allRepos` when fewer than twelve qualify. Each entry is one of those repositories, taken no more often than it occurs. The list is ordered by stars, and no qualifying repository left out has more stars than one shown. |
| ProjectsView.FirstSixAreTopRepos | src/components/Projects.tsx:27-30 | The first six projects shown are exactly the statistics' `topRepos`. |
| ProjectsView.LanguageColor | src/components/Projects.tsx:43-55 | A mapped language gets its listed colour. Grey is returned exactly for unmapped languages. The result is always a `#rrggbb` colour. |
| ProjectsView.VisibleTopics | src/components/Projects.tsx:112 | At most three topics are shown. They are the first ones, in order, and all of them when there are at most three. |
| Certificates.CertificateId | src/lib/certificates.ts:41 | A name without `.pdf` is its own identifier. Otherwise the identifier is four characters shorter, and putting `.pdf` back at the first occurrence restores the name. |
| Certificates.CertificateIdOfPdf | src/lib/certificates.ts:41 | A file `base.pdf` with no other dot has identifier `base`. |
| Certificates.DisplayNameIsTitleCase | src/lib/certificates.ts:42-46 | The display name has the identifier's length. Position by position, a dash becomes a space, the first character of each word is upper-cased, and every other character is kept. |
| Certificates.DisplayNameWords | src/lib/certificates.ts:42-46 | There is one word per dash plus one, and joining the words back with dashes restores the identifier. |
| Certificates.MakeCertificate | src/lib/certificates.ts:41-54 | The record keeps the file name. Its identifier, title-cased name, `/certificates/<file>` PDF URL and `/certificates/thumbnails/<id>.jpg` thumbnail URL are all derived from that name. |
| Certificates.ListCertificates | src/lib/certificates.ts:35-62 | The result holds one record for each file whose probe was ok, in order, and nothing else. A probe that threw drops only its own file. |
| Certificates.GetCertificateFiles | src/lib/certificates.ts:17-62 | The result is the in-order selection of the twelve known files that exist, so it has at most twelve entries. |
| Certificates.Record | src/lib/certificates.ts:90-95 | A key is stored exactly when its capture is non-empty, with the capture trimmed. Every other key is unchanged. |
| Certificates.ParseMetadata | src/lib/certificates.ts:79-98 | A key is present exactly when its pattern captured a non-empty group, and its value is that group trimmed. |
| Certificates.MetadataValuesTrimmed | src/lib/certificates.ts:92-94 | No stored value starts or ends with white space, and trimming it again changes nothing. |
| Certificates.GeneratePdfThumbnail | src/lib/certificates.ts:101-110 | Every URL yields the placeholder path. |
| Certificates.ExtractTextFromPdf | src/lib/certificates.ts:64-77 | A successful fetch yields the fixed placeholder sentence. A failed one yields the empty string. |
| PdfPreview.SpaceAll | src/lib/pdfProcessor.ts:47 | Length is kept, and each character has its separators turned into spaces. |
| PdfPreview.PreviewTitle | src/lib/pdfProcessor.ts:47 | The title has no `-` or `_`. Without `.pdf` it is the name with separators spaced. With `.pdf` it is four characters shorter. It follows the name before the first `.pdf` and the name shifted by four after it. |
| PdfPreview.PreviewTitleOfPdf | src/lib/pdfProcessor.ts:47 | The title of `<stem>.pdf` is the stem with its separators spaced, when the stem does not already contain `.pdf`. |
| PdfPreview.ProcessPdfPreview | src/lib/pdfProcessor.ts:44-52 | The preview exists exactly when rendering succeeded. It keeps the file name unchanged and carries the rendered URL and the derived title. |
| CvLayout.CheckPageBreak | src/lib/cvGenerator.ts:163-170 | A break happens exactly when the block would reach into the 25 mm bottom margin. It adds one page and moves the cursor to 20 mm. Otherwise nothing changes. Any block no taller than the usable page fits after the check. |
| CvLayout.SectionLoop | src/lib/cvGenerator.ts:494-527 | A section loop checks for a page break before each item and then draws it. The first item is checked at the starting cursor, and each later item at the end of the item before it. An item starts at the top margin of a new page exactly when its block does not fit above the bottom margin there; otherwise it starts where it was checked. The pages added equal the number of items that broke, which is at most one per item. The cursor ends at the last item's start plus its height. When the block fits the usable page, each item starts with that much room above the bottom margin. Without a break, the items stack one below the other from the starting cursor. |
| CvLayout.AddText | src/lib/cvGenerator.ts:85-107 | The returned cursor is the baseline of the line after the last one drawn, so every drawn line lies above it. For a positive font size it moves down. Unwrapped text advances by `fontSize * 0.4`. |
| CvLayout.AddSkillBadge | src/lib/cvGenerator.ts:146-161 | The next badge starts one 5 mm gap after the right edge of this badge. The badge is the text width plus 6 mm wide. The cursor always moves right. |
| CvLayout.FlowBadges | src/lib/cvGenerator.ts:389-396 | The badge loop pads each badge. A badge stays on the cursor's row exactly when it fits there. Otherwise it opens the next row at x = 25. Badges on one row never overlap, and the final cursors stand one gap after the last badge, on its row. |
| CvLayout.FlowedRowsDisjoint | src/lib/cvGenerator.ts:477-484 | For either wrap rule, rows only move down from the starting row. Each badge starts at least one gap past the right edge of every earlier badge on its row. A badge overflows the rule only when it starts a row. |
| CvLayout.ProjectRows | src/lib/cvGenerator.ts:443-448 | The first four projects are laid out, in order, each with accent `palette[i % 4]`. No two laid-out projects share an accent. |
| CvLayout.MedalFor | src/lib/cvGenerator.ts:497-500 | Gold exactly when the position names a first place. Silver exactly when it names a second place and no first. Bronze otherwise. |
| CvLayout.AchievementRows | src/lib/cvGenerator.ts:494-500 | The first five achievements are laid out, in order, each with its medal. |
| CvLayout.CertificateRows | src/lib/cvGenerator.ts:545-556 | The section exists exactly for a non-empty list. It shows the first eight certificates in order, or all of them when there are fewer. The first row is banded, and bands alternate. |
| CvLayout.PageLabels | src/lib/cvGenerator.ts:593-599 | Each page `i` of `n` gets the label `"i / n"`. |
| CvLayout.PageLabelInjective | src/lib/cvGenerator.ts:598 | Equal labels for the same page count mean equal page numbers. |
| CvLayout.PageLabelsDistinct | src/lib/cvGenerator.ts:593-599 | No two pages get the same label. |
| CvLayout.DownloadFileName | src/lib/cvGenerator.ts:789-791 | The saved name is the fixed base followed by `_ID.pdf` for Indonesian and `_EN.pdf` otherwise. |
| CvLayout.DownloadFileNameInjective | src/lib/cvGenerator.ts:789-791 | The two languages save under different names. |
| Achievements.PositionTier | src/components/sections/AchievementsSection.tsx:52-62 | Every position falls in exactly one tier: the first of first, second and third whose markers occur, or other. |
| Achievements.PositionColor | src/components/sections/AchievementsSection.tsx:52-62 | The colour is the tier's gradient, and the colour determines the tier. |
| Achievements.TierColorInjective | src/components/sections/AchievementsSection.tsx:53-61 | The four tiers have four different gradients. |
| Achievements.MedalAgreesWithTier | src/components/sections/AchievementsSection.tsx:53-56 | The CV gives gold exactly for the yellow tier and silver exactly for the gray one. Bronze covers the orange and blue tiers. |
| Achievements.ThirdPlaceTier | src/components/sections/AchievementsSection.tsx:18 | `3rd Place` is in the third tier. |
| Achievements.JuaraThreeTier | src/components/sections/AchievementsSection.tsx:18 | `Juara 3` is in the third tier. |
| Achievements.FirstPlaceTier | src/components/sections/AchievementsSection.tsx:25 | `1st Place` is in the first tier. |
| Achievements.JuaraOneTier | src/components/sections/AchievementsSection.tsx:25 | `Juara 1` is in the first tier. |
| Achievements.TopTier | src/components/sections/AchievementsSection.tsx:32 | `Top 200` is in the other tier. |
| Achievements.HonorableMentionTier | src/components/sections/AchievementsSection.tsx:39 | `Honorable Mention 1` is in the other tier, although it ends in a 1. |
| Achievements.Tiers | src/components/sections/AchievementsSection.tsx:100 | Each card's tier is the tier of its position in the current language. |
| Achievements.DataTiers | src/components/sections/AchievementsSection.tsx:14-50 | In either language the data's tiers are third, first, other, other, third. |
| Achievements.TiersAgreeAcrossLanguages | src/components/sections/AchievementsSection.tsx:14-50 | Each achievement's English and Indonesian positions fall in the same tier. |
| Achievements.SummaryOf | src/components/sections/AchievementsSection.tsx:170-225 | The total is the list length. The first, third and other counts are the multiplicities of those tiers, and together they never exceed the total. |
| Achievements.ShownSummaryMatchesData | src/components/sections/AchievementsSection.tsx:170-225 | The written-out numbers 5, 1, 2, 2 are the counts the data gives, in either language. |
| LanguagePrefs.Translate | src/contexts/LanguageContext.tsx:184-186 | A key with a non-empty entry in the current language's table translates to that entry. A key with an empty entry, or with none, is returned as itself. |
| LanguagePrefs.LookupOr | src/contexts/LanguageContext.tsx:185 | A key with a non-empty entry yields the entry. A key whose entry is empty, or that has no entry, yields the key itself, because JavaScript's logical or treats the empty string as false. |
| LanguagePrefs.TablesParallel | src/contexts/LanguageContext.tsx:15-156 | The `en` and `id` tables define the same keys, and no entry is empty. |
| LanguagePrefs.TranslatedInBoth | src/contexts/LanguageContext.tsx:15-156 | A key is in one table exactly when it is in the other. It then translates to that language's non-empty entry. Any other key is shown as itself in both languages. |
| LanguagePrefs.FindByCode | src/contexts/LanguageContext.tsx:174 | A language is found exactly for the codes `en` and `id`, and it is a listed language with that code. |
| LanguagePrefs.Restore | src/contexts/LanguageContext.tsx:171-177 | A saved `en` or `id` makes the listed language with that code current. An absent, empty or unknown value changes nothing. Storage is only read. |
| LanguagePrefs.Mount | src/contexts/LanguageContext.tsx:169-177 | The current language is a listed one. It is English unless a valid code was saved. |
| LanguagePrefs.SetLanguage | src/contexts/LanguageContext.tsx:179-182 | The language becomes current and its code is stored under `preferred-language`. No other stored key changes. |
| LanguagePrefs.CodeStringInjective | src/contexts/LanguageContext.tsx:10-13 | The two languages have different codes, so a lookup by code cannot be ambiguous. |
| LanguagePrefs.RestoreAfterSet | src/contexts/LanguageContext.tsx:171-182 | A later mount restores the chosen code, and the chosen language itself when it is listed. |
| Theme.ParseMode | src/contexts/ThemeContext.tsx:25 | A saved value counts exactly when it is `light` or `dark`, and it is read as that mode. |
| Theme.ParseModeString | src/contexts/ThemeContext.tsx:25 | Each mode reads back as itself. |
| Theme.RestoredMode | src/contexts/ThemeContext.tsx:23-32 | A valid saved mode wins. Otherwise the mode is dark exactly when the system prefers dark. |
| Theme.Persist | src/contexts/ThemeContext.tsx:34-37 | The attribute and the stored value both name the current mode. No other stored key changes. |
| Theme.Mount | src/contexts/ThemeContext.tsx:21-37 | Starting from light, the mounted mode is the restored one. It ends up mirrored into the attribute and storage, and other stored keys are untouched. |
| Theme.Toggle | src/contexts/ThemeContext.tsx:39-41 | Toggling changes the mode and leaves it mirrored. Other stored keys are untouched. |
| Theme.ToggleTwice | src/contexts/ThemeContext.tsx:39-43 | `isDark` flips with each toggle. Two toggles restore the mode, and a mirrored state comes back exactly. |
| Theme.AfterToggles | src/contexts/ThemeContext.tsx:34-41 | After any number of toggles the state is mirrored, and the mode is flipped by the number's parity. |
| Theme.RemountRestores | src/contexts/ThemeContext.tsx:21-37 | A persisted mode is what the next mount restores, whatever the system preference. |
| Seqs.Filter | src/lib/github.ts:63-67 | The kept elements satisfy the predicate and come from the input, and every satisfying input element is kept. |
| Seqs.FilterMultiset | src/lib/github.ts:63-67 | Filtering keeps each satisfying element with its full multiplicity and drops the rest. |
| Seqs.SortDesc | src/lib/github.ts:68-71 | The result is ordered by the key, largest first, and is a permutation of the input. |
| Seqs.SortDescStable | src/lib/github.ts:68-71 | Elements with equal keys keep their input order. |
| Seqs.SumBySort | src/lib/github.ts:109-110 | Sorting does not change a sum over the elements. |
| Seqs.Dedup | src/lib/github.ts:111 | Each element of the input appears once, no element appears twice, and nothing else appears. Elements appear in the order of their first occurrence in the input. |
| Seqs.TakeSortedIsTop | src/lib/github.ts:114-117 | A prefix of a sorted list holds its largest keys: nothing left out is larger than anything kept. |
| Seqs.Find | src/contexts/LanguageContext.tsx:174 | The result is the first element satisfying the predicate, or nothing when none does. |
| Text.IndexOf | src/lib/certificates.ts:41 | The result is the first position where the pattern occurs, or nothing exactly when it occurs nowhere. |
| Text.RemoveFirst | src/lib/certificates.ts:41 | Without an occurrence the string is unchanged. Otherwise the result is shorter by the pattern, and reinserting the pattern at the first occurrence restores the string. |
| Text.CutAt | src/lib/pdfProcessor.ts:47 | After a cut, the characters before it stay in place and the ones after it move left by the pattern's length. |
| Text.Capitalize | src/lib/certificates.ts:45 | Length is kept. The first character is upper-cased and the rest are unchanged. |
| Text.SplitShape | src/lib/certificates.ts:44 | Splitting gives one more piece than there are separators, and no piece holds the separator. |
| Text.JoinSplit | src/lib/certificates.ts:44-46 | Joining the pieces with the separator restores the string. |
| Text.Trim | src/lib/certificates.ts:93 | The result is a piece of the input with only white space cut off either end, and it neither starts nor ends with white space. |
| Text.TrimIdempotent | src/lib/certificates.ts:93 | Trimming twice is trimming once. |
| Text.NatToStringInjective | src/lib/cvGenerator.ts:598 | Different page numbers render as different numerals. |

## Left out

- I/O is not modelled. The `fetch` calls, the HEAD probes, JSON decoding, pdf.js rendering and jsPDF drawing become inputs or are dropped. This covers fonts, colours, rectangles, the gradient header and `doc.save`.
- `Promise.all` in `getGitHubStats` is modelled as two independent inputs, because nothing about their concurrency is observable in the result.
- `console.error` and `console.warn` logging is not modelled. It has no effect on any result.
- GitHub.FetchRepos: `updated_at` is an integer timestamp. An unparsable date, which makes the JavaScript comparator return `NaN`, is not modelled.
- GitHub.Repo: the API numbers are unbounded integers. Precision limits of JavaScript numbers are not modelled.
- Text.Upper: only ASCII letters are upper-cased. Full Unicode case mapping by `toUpperCase` is not modelled.
- Certificates.ParseMetadata: each pattern's match is an input capture. The regular expressions themselves are not modelled.
- Certificates.ExtractTextFromPdf: this is modelled only by whether the fetch succeeded. The body that is read and discarded is not modelled.
- ProjectsView.LanguageColor: keys inherited from `Object.prototype`, such as `constructor`, are not modelled. The same holds for the translation tables.
- CvLayout.AddText: `maxWidth` is present or absent, and zero counts as absent. `NaN` is not modelled. Alignment only affects drawing.
- CvLayout.FlowBadges: text widths are non-negative and the row step is positive. Both hold for what `getTextWidth` returns and for the constants 12 and 10 the loops use. Badge positions are modelled. Badge colours and the sizes of the drawn rectangles are not.
- CvLayout: the fixed vertical offsets between sections are not modelled: the header block, section titles, and the `yPosition +=` steps between blocks. The page-break, text-advance and badge rules they feed are modelled. `doc.getNumberOfPages` is modelled as a page count passed in.
- CvLayout.SectionLoop: an item's drawn height is an input. The `addText` and gap arithmetic inside one achievement, project or certificate block is not composed into it.
- The CV data record, its colour palette values and the section headings are not modelled. Only the capped, ordered section rows are.
- Theme.Mount: React effect scheduling is modelled as one fixed order. The first render persists `light`, the restored mode is then set, and that mode is persisted in turn. The `matchMedia` query is a boolean input.
- LanguagePrefs.Restore: local storage is a map. Storage failures and quota errors are not modelled.
- The React components around these functions are not modelled: JSX, Tailwind classes, animations and the intersection observer.
