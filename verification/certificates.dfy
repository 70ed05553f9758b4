/** The certificate list of `src/lib/certificates.ts`: identifiers, display names
    and URLs derived from the file names, the in-order existence filter over the
    known files, the metadata record, and the thumbnail and text placeholders.
    The HEAD probes and the regular-expression matches are inputs. */
module Certificates {
  import opened Wrappers
  import opened Seqs
  import opened Text

  /** The files expected under `public/certificates`, in probing order. */
  const CertificateFiles: seq<string> := [
    "web-development-fundamentals.pdf",
    "javascript-es6-certification.pdf",
    "react-developer-certificate.pdf",
    "ui-ux-design-principles.pdf",
    "digital-photography-basics.pdf",
    "video-editing-mastery.pdf",
    "python-programming.pdf",
    "database-management.pdf",
    "nodejs-backend-development.pdf",
    "responsive-web-design.pdf",
    "git-version-control.pdf",
    "agile-project-management.pdf"]

  /** A certificate as `getCertificateFiles` builds it (the optional
      `extractedText` and `metadata` fields are never set there). */
  datatype Certificate = Certificate(
    id: string,
    name: string,
    fileName: string,
    pdfUrl: string,
    thumbnailUrl: string)

  // ---------------------------------------------------------------------------
  // Names and URLs

  /** `fileName.replace('.pdf', '')`: the first `.pdf` removed. */
  function CertificateId(fileName: string): (id: string)
    ensures !Contains(fileName, ".pdf") ==> id == fileName
    ensures Contains(fileName, ".pdf") ==>
              var i := IndexOf(fileName, ".pdf").value;
              |id| == |fileName| - 4 && id[..i] + ".pdf" + id[i..] == fileName
  {
    RemoveFirst(fileName, ".pdf")
  }

  /** A file named `base.pdf` with no other `.` in it has identifier `base`. */
  lemma CertificateIdOfPdf(base: string)
    requires '.' !in base
    ensures CertificateId(base + ".pdf") == base
  {
    var s := base + ".pdf";
    forall j | 0 <= j < |base|
      ensures !OccursAt(s, ".pdf", j)
    {
      assert s[j] == base[j] && base[j] != '.';
      if j + 4 <= |s| {
        assert s[j..j + 4][0] == s[j];
      }
    }
    RemoveFirstSuffix(base, ".pdf");
  }

  /** Capitalizes every word. */
  function CapitalizeAll(ws: seq<string>): (r: seq<string>)
    ensures |r| == |ws|
    ensures forall i :: 0 <= i < |ws| ==> r[i] == Capitalize(ws[i])
  {
    seq(|ws|, i requires 0 <= i < |ws| => Capitalize(ws[i]))
  }

  /** `id.split('-').map(capitalize first character).join(' ')`. */
  function DisplayName(id: string): string {
    Join(CapitalizeAll(Split(id, '-')), ' ')
  }

  /** The character of the display name at position `i`, read off `id` directly:
      a dash becomes a space, the first character of each word is upper-cased,
      every other character is kept. */
  function TitleChar(id: string, i: nat): char
    requires i < |id|
  {
    if id[i] == '-' then ' '
    else if i == 0 || id[i - 1] == '-' then Upper(id[i])
    else id[i]
  }

  function TitleCase(id: string): (r: string)
    ensures |r| == |id|
    ensures forall i :: 0 <= i < |id| ==> r[i] == TitleChar(id, i)
  {
    seq(|id|, i requires 0 <= i < |id| => TitleChar(id, i))
  }

  lemma TitleCaseAtDash(s: string, i: nat)
    requires i < |s| && s[i] == '-'
    ensures TitleCase(s) == TitleCase(s[..i]) + " " + TitleCase(s[i + 1..])
  {
    var lhs := TitleCase(s);
    var rhs := TitleCase(s[..i]) + " " + TitleCase(s[i + 1..]);
    forall k | 0 <= k < |s|
      ensures lhs[k] == rhs[k]
    {
      if k > i {
        assert s[i + 1..][k - i - 1] == s[k];
        if k - i - 1 > 0 {
          assert s[i + 1..][k - i - 2] == s[k - 1];
        }
      }
    }
  }

  /** The display name has the length of the identifier and, position by
      position, is the identifier with dashes turned into spaces and each word's
      first character upper-cased. */
  lemma {:induction false} DisplayNameIsTitleCase(s: string)
    ensures DisplayName(s) == TitleCase(s)
    decreases |s|
  {
    if '-' !in s {
      OneWordTitleCase(s);
    } else {
      var i := FirstIndex(s, '-');
      DisplayNameIsTitleCase(s[i + 1..]);
      FirstWordTitleCase(s, i);
    }
  }

  /** A single word's display name is the word capitalized, which is its title case. */
  lemma OneWordTitleCase(s: string)
    requires '-' !in s
    ensures DisplayName(s) == TitleCase(s)
  {
    assert Split(s, '-') == [s];
    assert CapitalizeAll([s]) == [Capitalize(s)];
    if |s| > 0 {
      forall k | 0 <= k < |s|
        ensures Capitalize(s)[k] == TitleChar(s, k)
      {
        if k > 0 {
          assert Capitalize(s)[k] == Capitalize(s)[1..][k - 1];
          assert s[k - 1] != '-';
        }
      }
    }
  }

  /** At the first dash, the display name is the first word's, a space, and
      the rest's. */
  lemma DisplayNameAtDash(s: string, i: nat)
    requires '-' in s && i == FirstIndex(s, '-')
    ensures DisplayName(s) == DisplayName(s[..i]) + " " + DisplayName(s[i + 1..])
  {
    var ws := Split(s[i + 1..], '-');
    SplitAtFirst(s, '-');
    CapitalizeAllCons(s[..i], ws);
    CapitalizeAllCons(s[..i], []);
    JoinCons(Capitalize(s[..i]), CapitalizeAll(ws), ' ');
  }

  /** Capitalizing a word list word by word, one word at a time. */
  lemma CapitalizeAllCons(w: string, ws: seq<string>)
    ensures CapitalizeAll([w] + ws) == [Capitalize(w)] + CapitalizeAll(ws)
  {
    var l := CapitalizeAll([w] + ws);
    var r := [Capitalize(w)] + CapitalizeAll(ws);
    forall k | 0 <= k < |l|
      ensures l[k] == r[k]
    {
      if k > 0 {
        assert ([w] + ws)[k] == ws[k - 1];
      }
    }
  }

  /** Cutting the first word off at the first dash: when the rest is title-cased
      by its display name, so is the whole identifier. */
  lemma FirstWordTitleCase(s: string, i: nat)
    requires '-' in s && i == FirstIndex(s, '-')
    requires DisplayName(s[i + 1..]) == TitleCase(s[i + 1..])
    ensures DisplayName(s) == TitleCase(s)
  {
    OneWordTitleCase(s[..i]);
    DisplayNameAtDash(s, i);
    TitleCaseAtDash(s, i);
  }

  /** The display name has one word per dash-separated piece of the identifier,
      and joining the pieces back with dashes restores the identifier. */
  lemma DisplayNameWords(id: string)
    ensures |Split(id, '-')| == Count(id, '-') + 1
    ensures Join(Split(id, '-'), '-') == id
  {
    SplitShape(id, '-');
    JoinSplit(id, '-');
  }

  const PdfPrefix := "/certificates/"
  const ThumbnailPrefix := "/certificates/thumbnails/"

  /** The record `getCertificateFiles` pushes for a file that exists. */
  function MakeCertificate(fileName: string): (c: Certificate)
    ensures c.fileName == fileName
    ensures c.id == CertificateId(fileName)
    ensures c.name == TitleCase(c.id)
    ensures c.pdfUrl == PdfPrefix + fileName
    ensures c.thumbnailUrl == ThumbnailPrefix + c.id + ".jpg"
  {
    var id := CertificateId(fileName);
    DisplayNameIsTitleCase(id);
    Certificate(id, DisplayName(id), fileName, PdfPrefix + fileName, ThumbnailPrefix + id + ".jpg")
  }

  // ---------------------------------------------------------------------------
  // The existence filter

  /** How the HEAD probe of one file ended: an ok status, another status, or a
      thrown error (logged and skipped). */
  datatype Probe = Found | Missing | Threw

  function FoundBy(probe: string -> Probe): string -> bool {
    f => probe(f) == Found
  }

  /** One certificate record per file name, in order. */
  function BuildAll(names: seq<string>): (r: seq<Certificate>)
    ensures |r| == |names|
    ensures forall i :: 0 <= i < |names| ==> r[i] == MakeCertificate(names[i])
  {
    seq(|names|, i requires 0 <= i < |names| => MakeCertificate(names[i]))
  }

  /** The loop of `getCertificateFiles` over `files`, probing each in order.
      The result holds, in order, a record for exactly the files whose probe was
      ok; a probe that threw drops only its own file. */
  method ListCertificates(files: seq<string>, probe: string -> Probe) returns (certs: seq<Certificate>)
    ensures certs == BuildAll(Filter(files, FoundBy(probe)))
    ensures |certs| <= |files|
  {
    certs := [];
    var i := 0;
    while i < |files|
      invariant 0 <= i <= |files|
      invariant certs == BuildAll(Filter(files[..i], FoundBy(probe)))
    {
      var fileName := files[i];
      ListStep(files, i, probe);
      if probe(fileName) == Found {
        certs := certs + [MakeCertificate(fileName)];
      }
      i := i + 1;
    }
    assert files[..i] == files;
  }

  /** One more probed file adds its record exactly when it was found. */
  lemma ListStep(files: seq<string>, i: nat, probe: string -> Probe)
    requires i < |files|
    ensures BuildAll(Filter(files[..i + 1], FoundBy(probe)))
         == BuildAll(Filter(files[..i], FoundBy(probe)))
            + (if probe(files[i]) == Found then [MakeCertificate(files[i])] else [])
  {
    var before := Filter(files[..i], FoundBy(probe));
    FilterConcat(files[..i], [files[i]], FoundBy(probe));
    assert files[..i + 1] == files[..i] + [files[i]];
    FilterCons(files[i], [], FoundBy(probe));
    assert [files[i]] + [] == [files[i]];
    if probe(files[i]) == Found {
      assert BuildAll(before + [files[i]]) == BuildAll(before) + [MakeCertificate(files[i])];
    } else {
      assert before + [] == before;
    }
  }

  /** `getCertificateFiles()`: the known files that exist, at most twelve. */
  method GetCertificateFiles(probe: string -> Probe) returns (certs: seq<Certificate>)
    ensures |certs| <= 12
    ensures certs == BuildAll(Filter(CertificateFiles, FoundBy(probe)))
  {
    certs := ListCertificates(CertificateFiles, probe);
  }

  // ---------------------------------------------------------------------------
  // Metadata

  /** The four fields the metadata patterns look for. */
  datatype MetaKey = Issuer | Date | Title | Recipient

  /** Records one pattern's outcome: `capture` is group 1 of that pattern's match
      on the text (absent when the pattern did not match or the group did not
      take part). A non-empty capture is stored trimmed. */
  function Record(m: map<MetaKey, string>, key: MetaKey, capture: Option<string>): (r: map<MetaKey, string>)
    ensures key in r <==> key in m || (capture.Some? && capture.value != "")
    ensures capture.Some? && capture.value != "" ==> r[key] == Trim(capture.value)
    ensures forall k :: k != key ==> (k in r <==> k in m) && (k in m ==> r[k] == m[k])
  {
    if capture.Some? && capture.value != "" then m[key := Trim(capture.value)] else m
  }

  /** `parseCertificateMetadata`: a key is present exactly when its pattern
      captured a non-empty group, and its value is that group trimmed. */
  function ParseMetadata(capture: MetaKey -> Option<string>): (m: map<MetaKey, string>)
    ensures forall k :: k in m <==> capture(k).Some? && capture(k).value != ""
    ensures forall k :: k in m ==> m[k] == Trim(capture(k).value)
  {
    var m0: map<MetaKey, string> := map[];
    var m1 := Record(m0, Issuer, capture(Issuer));
    var m2 := Record(m1, Date, capture(Date));
    var m3 := Record(m2, Title, capture(Title));
    Record(m3, Recipient, capture(Recipient))
  }

  /** Every stored value is a piece of its capture with no white space at
      either end, and trimming it again changes nothing. */
  lemma MetadataValuesTrimmed(capture: MetaKey -> Option<string>, k: MetaKey)
    requires k in ParseMetadata(capture)
    ensures var v := ParseMetadata(capture)[k];
            && (|v| == 0 || (!IsWhite(v[0]) && !IsWhite(v[|v| - 1])))
            && Trim(v) == v
  {
    TrimIdempotent(capture(k).value);
  }

  // ---------------------------------------------------------------------------
  // Placeholders

  const PlaceholderThumbnail := "/api/placeholder/400/300"
  const PlaceholderText := "Text extraction from PDF would be implemented here using PDF.js or similar library"

  /** `generatePDFThumbnail`: the try block cannot throw, and the catch block
      returns the same path, so every URL yields the placeholder. */
  function GeneratePdfThumbnail(pdfUrl: string): (r: string)
    ensures r == PlaceholderThumbnail
  {
    PlaceholderThumbnail
  }

  /** `extractTextFromPDF`: the placeholder sentence once the fetch succeeded,
      the empty string when it threw. */
  function ExtractTextFromPdf(fetchSucceeded: bool): (r: string)
    ensures fetchSucceeded ==> r == PlaceholderText
    ensures !fetchSucceeded ==> r == ""
  {
    if fetchSucceeded then PlaceholderText else ""
  }
}
