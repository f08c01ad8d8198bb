/** The chunk compiler: one employee record becomes an ordered list of labelled,
    single-line text chunks, the unit the retrieval stage embeds and ranks. */
module Chunking {
  import opened Common
  import opened Text

  /** The category of a chunk, in the order the compiler emits them. */
  datatype ChunkType =
    | Information | Skills | ProfessionalExperience | Education | Publication | Distinction | Certifications
  {
    /** The `type` column, which is also the first word of the chunk text. */
    function Label(): string
    {
      match this
      case Information => "INFORMATION"
      case Skills => "SKILLS"
      case ProfessionalExperience => "PROFESSIONAL_EXPERIENCE"
      case Education => "EDUCATION"
      case Publication => "PUBLICATION"
      case Distinction => "DISTINCTION"
      case Certifications => "CERTIFICATIONS"
    }

    /** Position of the category in the emission order. */
    function Rank(): nat
    {
      match this
      case Information => 0
      case Skills => 1
      case ProfessionalExperience => 2
      case Education => 3
      case Publication => 4
      case Distinction => 5
      case Certifications => 6
    }
  }

  /** One row of the chunk table: `(employee_id, user_id, type, chunk_text)`. */
  datatype Chunk = Chunk(chunkText: string, kind: ChunkType, userId: int, employeeId: int)

  datatype ExperienceEntry = ExperienceEntry(
    company: Field<string>, jobTitle: Field<string>, location: Field<string>,
    description: seq<string>)

  datatype EducationEntry = EducationEntry(
    title: Field<string>, institution: Field<string>, dateStart: Field<string>,
    dateEnd: Field<string>, score: Field<string>, description: Field<string>)

  datatype PublicationEntry = PublicationEntry(publication: Field<string>, date: Field<string>)

  datatype DistinctionEntry = DistinctionEntry(name: Field<string>, description: Field<string>)

  /** An employee record as posted by the client (and as the compiler reads it). */
  datatype EmployeeRecord = EmployeeRecord(
    id: Field<int>,
    fullName: Field<string>,
    email: Field<string>,
    jobTitle: Field<string>,
    promotionYears: Field<int>,
    profile: Field<string>,
    skills: Field<seq<string>>,
    experiences: Field<seq<ExperienceEntry>>,
    educations: Field<seq<EducationEntry>>,
    publications: Field<seq<PublicationEntry>>,
    distinctions: Field<seq<DistinctionEntry>>,
    certifications: Field<seq<string>>,
    fileData: Field<string>,
    fileUrl: Field<string>,
    userId: Field<int>)

  /** `f"{d.get(k, default)}"`: a missing key shows the default, `null` shows `None`. */
  function Show(f: Field<string>, default: string): string
  {
    match f
    case Absent => default
    case Null => "None"
    case Present(s) => s
  }

  /** The name every chunk text is prefixed with. */
  function NameOf(r: EmployeeRecord): string
  {
    Show(r.fullName, "N/A")
  }

  /** The first three lines of the INFORMATION content. */
  function InfoBase(r: EmployeeRecord): string
  {
    "Full Name: " + NameOf(r) + "\nEmail: " + Show(r.email, "N/A") + "\nJob Title: " + Show(r.jobTitle, "N/A")
  }

  /** The promotion line: added whenever the value is not `None`, so a 0 is kept. */
  function PromotionLine(r: EmployeeRecord): (line: string)
    ensures line == "" <==> !r.promotionYears.Present?
  {
    if r.promotionYears.Present? then "\nPromotion Year(s): " + IntToString(r.promotionYears.value) else ""
  }

  /** The profile line: added only for a non-empty profile. */
  function ProfileLine(r: EmployeeRecord): (line: string)
    ensures line == "" <==> !(r.profile.Present? && r.profile.value != "")
  {
    if r.profile.Present? && r.profile.value != "" then "\nProfile Summary: " + r.profile.value else ""
  }

  function InfoContent(r: EmployeeRecord): string
  {
    InfoBase(r) + PromotionLine(r) + ProfileLine(r)
  }

  function ExperienceContent(e: ExperienceEntry): string
  {
    "Working at " + Show(e.company, "N/A") + " as " + Show(e.jobTitle, "N/A") + " in "
      + Show(e.location, "N/A") + ". " + Join(e.description, ". ")
  }

  function EducationContent(e: EducationEntry): string
  {
    "Learned " + Show(e.title, "N/A") + " at " + Show(e.institution, "N/A") + " from "
      + Show(e.dateStart, "N/A") + " to " + Show(e.dateEnd, "N/A") + " with a score of "
      + Show(e.score, "N/A") + ". " + Show(e.description, "")
  }

  /** Reads the keys `publication` and `date` of the entry. */
  function PublicationContent(p: PublicationEntry): string
  {
    "Published in " + Show(p.publication, "N/A") + " in " + Show(p.date, "N/A") + "."
  }

  function DistinctionContent(d: DistinctionEntry): string
  {
    "Notable " + Show(d.name, "N/A") + ": " + Show(d.description, "")
  }

  /** The normalisation `add_chunk` applies to a content: newlines become ". ",
      then surrounding whitespace goes. */
  function Format(content: string): string
  {
    Strip(ReplaceNewlines(content))
  }

  /** A formatted content has no newline and formatting it again changes nothing. */
  lemma {:induction false} FormatIsNormal(content: string)
    ensures '\n' !in Format(content)
    ensures Format(Format(content)) == Format(content)
  {
    var f := Format(content);
    var s := ReplaceNewlines(content);
    NewlinesReplaced(content);
    var i, j := StripSlice(s);
    assert forall k :: 0 <= k < |f| ==> f[k] == s[i + k];
    assert '\n' !in f;
    NewlinesReplaced(f);
    StripIdempotent(s);
  }

  /** The text prefix of a chunk of the given category. */
  function Heading(kind: ChunkType, fullName: string): string
  {
    kind.Label() + " of " + fullName + ": "
  }

  /** `add_chunk(kind, content)`: the chunk it appends. */
  function MakeChunk(kind: ChunkType, fullName: string, content: string, employeeId: int, userId: int): (c: Chunk)
    ensures c.kind == kind && c.employeeId == employeeId && c.userId == userId
  {
    Chunk(Heading(kind, fullName) + Format(content), kind, userId, employeeId)
  }

  /** Every chunk of `cs` has category `kind` and the given owner ids. */
  predicate Uniform(cs: seq<Chunk>, kind: ChunkType, employeeId: int, userId: int)
  {
    forall i :: 0 <= i < |cs| ==> cs[i].kind == kind && cs[i].employeeId == employeeId && cs[i].userId == userId
  }

  /** One chunk of category `kind` per item, in item order. */
  function Section<T>(kind: ChunkType, fullName: string, items: seq<T>, content: T -> string,
                      employeeId: int, userId: int): (s: seq<Chunk>)
    ensures |s| == |items|
    ensures Uniform(s, kind, employeeId, userId)
  {
    seq(|items|, i requires 0 <= i < |items| => MakeChunk(kind, fullName, content(items[i]), employeeId, userId))
  }

  /** At most one chunk holding all items joined by `sep`; none when there are no items. */
  function Joined(kind: ChunkType, fullName: string, items: seq<string>, sep: string,
                  employeeId: int, userId: int): (s: seq<Chunk>)
    ensures |s| == if items != [] then 1 else 0
    ensures Uniform(s, kind, employeeId, userId)
  {
    if items != [] then [MakeChunk(kind, fullName, Join(items, sep), employeeId, userId)] else []
  }

  /** What `compile_to_chunk(data, employee_id, user_id)` returns. */
  function Compile(r: EmployeeRecord, employeeId: int, userId: int): seq<Chunk>
  {
    var name := NameOf(r);
    [MakeChunk(Information, name, InfoContent(r), employeeId, userId)]
    + Joined(Skills, name, ListOrEmpty(r.skills), ",", employeeId, userId)
    + Section(ProfessionalExperience, name, ListOrEmpty(r.experiences), ExperienceContent, employeeId, userId)
    + Section(Education, name, ListOrEmpty(r.educations), EducationContent, employeeId, userId)
    + Section(Publication, name, ListOrEmpty(r.publications), PublicationContent, employeeId, userId)
    + Section(Distinction, name, ListOrEmpty(r.distinctions), DistinctionContent, employeeId, userId)
    + Joined(Certifications, name, ListOrEmpty(r.certifications), " | ", employeeId, userId)
  }

  lemma {:induction false} SectionSnoc<T>(kind: ChunkType, fullName: string, items: seq<T>, k: nat, content: T -> string,
                                          employeeId: int, userId: int)
    requires k < |items|
    ensures Section(kind, fullName, items[..k + 1], content, employeeId, userId)
         == Section(kind, fullName, items[..k], content, employeeId, userId)
            + [MakeChunk(kind, fullName, content(items[k]), employeeId, userId)]
  {
    var a := Section(kind, fullName, items[..k + 1], content, employeeId, userId);
    var b := Section(kind, fullName, items[..k], content, employeeId, userId);
    forall i | 0 <= i < k
      ensures a[i] == b[i]
    {
      assert items[..k + 1][i] == items[..k][i];
    }
    assert a[k] == MakeChunk(kind, fullName, content(items[k]), employeeId, userId);
  }

  /** One of the `for ... in data.get(key, []) or []: add_chunk(...)` loops:
      appends one chunk per item, in item order. */
  method AddSection<T>(chunks: seq<Chunk>, kind: ChunkType, fullName: string, items: seq<T>,
                       content: T -> string, employeeId: int, userId: int)
    returns (out: seq<Chunk>)
    ensures out == chunks + Section(kind, fullName, items, content, employeeId, userId)
  {
    out := chunks;
    for k := 0 to |items|
      invariant out == chunks + Section(kind, fullName, items[..k], content, employeeId, userId)
    {
      SectionSnoc(kind, fullName, items, k, content, employeeId, userId);
      out := out + [MakeChunk(kind, fullName, content(items[k]), employeeId, userId)];
    }
    assert items[..|items|] == items;
  }

  /** The compiler as the source runs it: a local list that `add_chunk` appends to,
      with one loop per repeated section. */
  method CompileToChunk(data: EmployeeRecord, employeeId: int, userId: int) returns (chunks: seq<Chunk>)
    ensures chunks == Compile(data, employeeId, userId)
  {
    var fullName := NameOf(data);
    chunks := [];

    chunks := chunks + [MakeChunk(Information, fullName, InfoContent(data), employeeId, userId)];
    ghost var p0 := [MakeChunk(Information, fullName, InfoContent(data), employeeId, userId)];
    assert chunks == p0;

    var skills := ListOrEmpty(data.skills);
    if skills != [] {
      chunks := chunks + [MakeChunk(Skills, fullName, Join(skills, ","), employeeId, userId)];
    }
    ghost var p1 := Joined(Skills, fullName, skills, ",", employeeId, userId);
    assert chunks == p0 + p1;

    chunks := AddSection(chunks, ProfessionalExperience, fullName, ListOrEmpty(data.experiences),
                         ExperienceContent, employeeId, userId);
    chunks := AddSection(chunks, Education, fullName, ListOrEmpty(data.educations),
                         EducationContent, employeeId, userId);
    chunks := AddSection(chunks, Publication, fullName, ListOrEmpty(data.publications),
                         PublicationContent, employeeId, userId);
    chunks := AddSection(chunks, Distinction, fullName, ListOrEmpty(data.distinctions),
                         DistinctionContent, employeeId, userId);

    var certifications := ListOrEmpty(data.certifications);
    ghost var done := chunks;
    if certifications != [] {
      chunks := chunks + [MakeChunk(Certifications, fullName, Join(certifications, " | "), employeeId, userId)];
    }
    assert chunks == done + Joined(Certifications, fullName, certifications, " | ", employeeId, userId);
  }

  // ---------------------------------------------------------------------------
  // Properties of the compiled chunk list

  /** The chunks of one category, in list order. */
  function OfKind(cs: seq<Chunk>, kind: ChunkType): (r: seq<Chunk>)
    ensures |r| <= |cs|
    ensures forall c :: c in r ==> c in cs && c.kind == kind
  {
    if cs == [] then []
    else (if cs[0].kind == kind then [cs[0]] else []) + OfKind(cs[1..], kind)
  }

  lemma {:induction false} OfKindAppend(a: seq<Chunk>, b: seq<Chunk>, kind: ChunkType)
    ensures OfKind(a + b, kind) == OfKind(a, kind) + OfKind(b, kind)
  {
    if a == [] {
      assert a + b == b;
    } else {
      assert (a + b)[0] == a[0];
      assert (a + b)[1..] == a[1..] + b;
      OfKindAppend(a[1..], b, kind);
    }
  }

  /** A list whose chunks all have category `k` filters to itself for `k` and to nothing otherwise. */
  lemma {:induction false} OfKindUniform(cs: seq<Chunk>, k: ChunkType, kind: ChunkType, employeeId: int, userId: int)
    requires Uniform(cs, k, employeeId, userId)
    ensures OfKind(cs, kind) == if k == kind then cs else []
  {
    if cs != [] {
      OfKindUniform(cs[1..], k, kind, employeeId, userId);
    }
  }

  /** Every chunk of `compile_to_chunk` carries the given owner ids, starts with
      `TYPE of full_name: ` and ends with a content that has no newline and that
      the formatting leaves unchanged. */
  predicate WellFormed(c: Chunk, fullName: string, employeeId: int, userId: int)
  {
    && c.employeeId == employeeId
    && c.userId == userId
    && StartsWith(c.chunkText, Heading(c.kind, fullName))
    && var body := c.chunkText[|Heading(c.kind, fullName)|..];
       '\n' !in body && Format(body) == body
  }

  lemma {:induction false} MakeChunkWellFormed(kind: ChunkType, fullName: string, content: string,
                                               employeeId: int, userId: int)
    ensures WellFormed(MakeChunk(kind, fullName, content, employeeId, userId), fullName, employeeId, userId)
  {
    var c := MakeChunk(kind, fullName, content, employeeId, userId);
    var h := Heading(kind, fullName);
    assert c.chunkText[..|h|] == h;
    assert c.chunkText[|h|..] == Format(content);
    FormatIsNormal(content);
  }

  lemma {:induction false} SectionWellFormed<T>(kind: ChunkType, fullName: string, items: seq<T>, content: T -> string,
                                                employeeId: int, userId: int)
    ensures forall c :: c in Section(kind, fullName, items, content, employeeId, userId)
                    ==> WellFormed(c, fullName, employeeId, userId)
  {
    var s := Section(kind, fullName, items, content, employeeId, userId);
    forall c | c in s
      ensures WellFormed(c, fullName, employeeId, userId)
    {
      var i :| 0 <= i < |s| && s[i] == c;
      MakeChunkWellFormed(kind, fullName, content(items[i]), employeeId, userId);
    }
  }

  lemma {:induction false} JoinedWellFormed(kind: ChunkType, fullName: string, items: seq<string>, sep: string,
                                            employeeId: int, userId: int)
    ensures forall c :: c in Joined(kind, fullName, items, sep, employeeId, userId)
                    ==> WellFormed(c, fullName, employeeId, userId)
  {
    MakeChunkWellFormed(kind, fullName, Join(items, sep), employeeId, userId);
  }

  /** The single-line shape of every chunk, and its owner ids. */
  lemma {:induction false} CompileWellFormed(r: EmployeeRecord, employeeId: int, userId: int)
    ensures forall c :: c in Compile(r, employeeId, userId) ==> WellFormed(c, NameOf(r), employeeId, userId)
  {
    var name := NameOf(r);
    MakeChunkWellFormed(Information, name, InfoContent(r), employeeId, userId);
    JoinedWellFormed(Skills, name, ListOrEmpty(r.skills), ",", employeeId, userId);
    SectionWellFormed(ProfessionalExperience, name, ListOrEmpty(r.experiences), ExperienceContent, employeeId, userId);
    SectionWellFormed(Education, name, ListOrEmpty(r.educations), EducationContent, employeeId, userId);
    SectionWellFormed(Publication, name, ListOrEmpty(r.publications), PublicationContent, employeeId, userId);
    SectionWellFormed(Distinction, name, ListOrEmpty(r.distinctions), DistinctionContent, employeeId, userId);
    JoinedWellFormed(Certifications, name, ListOrEmpty(r.certifications), " | ", employeeId, userId);
  }

  /** The number of chunks: one INFORMATION chunk, one SKILLS chunk when there are
      skills, one chunk per experience, education, publication and distinction,
      and one CERTIFICATIONS chunk when there are certifications. */
  lemma {:induction false} CompileLength(r: EmployeeRecord, employeeId: int, userId: int)
    ensures |Compile(r, employeeId, userId)|
         == 1 + (if ListOrEmpty(r.skills) != [] then 1 else 0)
              + |ListOrEmpty(r.experiences)| + |ListOrEmpty(r.educations)|
              + |ListOrEmpty(r.publications)| + |ListOrEmpty(r.distinctions)|
              + (if ListOrEmpty(r.certifications) != [] then 1 else 0)
  {
  }

  /** A single-category part's contribution to the chunks of category `kind`. */
  function Pick(part: seq<Chunk>, k: ChunkType, kind: ChunkType): seq<Chunk>
  {
    if k == kind then part else []
  }

  /** Filtering a list that ends in a single-category part. */
  lemma {:induction false} OfKindTail(a: seq<Chunk>, b: seq<Chunk>, k: ChunkType, kind: ChunkType,
                                      employeeId: int, userId: int)
    requires Uniform(b, k, employeeId, userId)
    ensures OfKind(a + b, kind) == OfKind(a, kind) + Pick(b, k, kind)
  {
    OfKindAppend(a, b, kind);
    OfKindUniform(b, k, kind, employeeId, userId);
  }

  /** Of seven single-category parts in category order, exactly the part of category
      `kind` is picked. */
  lemma {:induction false} PickOne(p0: seq<Chunk>, p1: seq<Chunk>, p2: seq<Chunk>, p3: seq<Chunk>,
                                   p4: seq<Chunk>, p5: seq<Chunk>, p6: seq<Chunk>, kind: ChunkType)
    ensures Pick(p0, Information, kind) + Pick(p1, Skills, kind) + Pick(p2, ProfessionalExperience, kind)
            + Pick(p3, Education, kind) + Pick(p4, Publication, kind) + Pick(p5, Distinction, kind)
            + Pick(p6, Certifications, kind)
         == match kind
            case Information => p0
            case Skills => p1
            case ProfessionalExperience => p2
            case Education => p3
            case Publication => p4
            case Distinction => p5
            case Certifications => p6
  {
    var e: seq<Chunk> := [];
    match kind
    case Information => assert p0 + e + e + e + e + e + e == p0;
    case Skills => assert e + p1 + e + e + e + e + e == p1;
    case ProfessionalExperience => assert e + e + p2 + e + e + e + e == p2;
    case Education => assert e + e + e + p3 + e + e + e == p3;
    case Publication => assert e + e + e + e + p4 + e + e == p4;
    case Distinction => assert e + e + e + e + e + p5 + e == p5;
    case Certifications => assert e + e + e + e + e + e + p6 == p6;
  }

  /** Filtering seven concatenated single-category parts by a category picks out
      the part of that category. */
  lemma {:induction false} OfKindParts(p0: seq<Chunk>, p1: seq<Chunk>, p2: seq<Chunk>, p3: seq<Chunk>,
                                       p4: seq<Chunk>, p5: seq<Chunk>, p6: seq<Chunk>,
                                       kind: ChunkType, employeeId: int, userId: int)
    requires Uniform(p0, Information, employeeId, userId) && Uniform(p1, Skills, employeeId, userId)
    requires Uniform(p2, ProfessionalExperience, employeeId, userId) && Uniform(p3, Education, employeeId, userId)
    requires Uniform(p4, Publication, employeeId, userId) && Uniform(p5, Distinction, employeeId, userId)
    requires Uniform(p6, Certifications, employeeId, userId)
    ensures OfKind(p0 + p1 + p2 + p3 + p4 + p5 + p6, kind)
         == match kind
            case Information => p0
            case Skills => p1
            case ProfessionalExperience => p2
            case Education => p3
            case Publication => p4
            case Distinction => p5
            case Certifications => p6
  {
    OfKindTail([], p0, Information, kind, employeeId, userId);
    assert [] + p0 == p0;
    OfKindTail(p0, p1, Skills, kind, employeeId, userId);
    OfKindTail(p0 + p1, p2, ProfessionalExperience, kind, employeeId, userId);
    OfKindTail(p0 + p1 + p2, p3, Education, kind, employeeId, userId);
    OfKindTail(p0 + p1 + p2 + p3, p4, Publication, kind, employeeId, userId);
    OfKindTail(p0 + p1 + p2 + p3 + p4, p5, Distinction, kind, employeeId, userId);
    OfKindTail(p0 + p1 + p2 + p3 + p4 + p5, p6, Certifications, kind, employeeId, userId);
    PickOne(p0, p1, p2, p3, p4, p5, p6, kind);
  }

  /** Category by category: exactly one INFORMATION chunk; a SKILLS chunk (skills
      joined by ",") iff there are skills; one chunk per list entry, in input order,
      for experiences, educations, publications and distinctions; a CERTIFICATIONS
      chunk (joined by " | ") iff there are certifications. */
  lemma {:induction false} CompileByKind(r: EmployeeRecord, employeeId: int, userId: int)
    ensures var cs := Compile(r, employeeId, userId); var name := NameOf(r);
      && OfKind(cs, Information) == [MakeChunk(Information, name, InfoContent(r), employeeId, userId)]
      && OfKind(cs, Skills) == Joined(Skills, name, ListOrEmpty(r.skills), ",", employeeId, userId)
      && OfKind(cs, ProfessionalExperience)
         == Section(ProfessionalExperience, name, ListOrEmpty(r.experiences), ExperienceContent, employeeId, userId)
      && OfKind(cs, Education) == Section(Education, name, ListOrEmpty(r.educations), EducationContent, employeeId, userId)
      && OfKind(cs, Publication)
         == Section(Publication, name, ListOrEmpty(r.publications), PublicationContent, employeeId, userId)
      && OfKind(cs, Distinction)
         == Section(Distinction, name, ListOrEmpty(r.distinctions), DistinctionContent, employeeId, userId)
      && OfKind(cs, Certifications)
         == Joined(Certifications, name, ListOrEmpty(r.certifications), " | ", employeeId, userId)
  {
    CompileOfKind(r, Information, employeeId, userId);
    CompileOfKind(r, Skills, employeeId, userId);
    CompileOfKind(r, ProfessionalExperience, employeeId, userId);
    CompileOfKind(r, Education, employeeId, userId);
    CompileOfKind(r, Publication, employeeId, userId);
    CompileOfKind(r, Distinction, employeeId, userId);
    CompileOfKind(r, Certifications, employeeId, userId);
  }

  /** The chunks of one category in the compiled list: that category's part. */
  lemma CompileOfKind(r: EmployeeRecord, kind: ChunkType, employeeId: int, userId: int)
    ensures var name := NameOf(r);
      OfKind(Compile(r, employeeId, userId), kind)
      == match kind
         case Information => [MakeChunk(Information, name, InfoContent(r), employeeId, userId)]
         case Skills => Joined(Skills, name, ListOrEmpty(r.skills), ",", employeeId, userId)
         case ProfessionalExperience =>
           Section(ProfessionalExperience, name, ListOrEmpty(r.experiences), ExperienceContent, employeeId, userId)
         case Education => Section(Education, name, ListOrEmpty(r.educations), EducationContent, employeeId, userId)
         case Publication => Section(Publication, name, ListOrEmpty(r.publications), PublicationContent, employeeId, userId)
         case Distinction => Section(Distinction, name, ListOrEmpty(r.distinctions), DistinctionContent, employeeId, userId)
         case Certifications => Joined(Certifications, name, ListOrEmpty(r.certifications), " | ", employeeId, userId)
  {
    var name := NameOf(r);
    var p0 := [MakeChunk(Information, name, InfoContent(r), employeeId, userId)];
    var p1 := Joined(Skills, name, ListOrEmpty(r.skills), ",", employeeId, userId);
    var p2 := Section(ProfessionalExperience, name, ListOrEmpty(r.experiences), ExperienceContent, employeeId, userId);
    var p3 := Section(Education, name, ListOrEmpty(r.educations), EducationContent, employeeId, userId);
    var p4 := Section(Publication, name, ListOrEmpty(r.publications), PublicationContent, employeeId, userId);
    var p5 := Section(Distinction, name, ListOrEmpty(r.distinctions), DistinctionContent, employeeId, userId);
    var p6 := Joined(Certifications, name, ListOrEmpty(r.certifications), " | ", employeeId, userId);
    assert Compile(r, employeeId, userId) == p0 + p1 + p2 + p3 + p4 + p5 + p6;
    OfKindParts(p0, p1, p2, p3, p4, p5, p6, kind, employeeId, userId);
  }

  /** The categories appear in a fixed order, and the INFORMATION chunk comes first. */
  predicate InCategoryOrder(cs: seq<Chunk>)
  {
    forall i, j :: 0 <= i < j < |cs| ==> cs[i].kind.Rank() <= cs[j].kind.Rank()
  }

  /** No chunk of `cs` ranks after `rank`. */
  predicate RankedUpTo(cs: seq<Chunk>, rank: nat)
  {
    forall i :: 0 <= i < |cs| ==> cs[i].kind.Rank() <= rank
  }

  lemma {:induction false} OrderedAppend(a: seq<Chunk>, b: seq<Chunk>, kind: ChunkType, employeeId: int, userId: int)
    requires InCategoryOrder(a) && RankedUpTo(a, kind.Rank())
    requires Uniform(b, kind, employeeId, userId)
    ensures InCategoryOrder(a + b) && RankedUpTo(a + b, kind.Rank())
  {
  }

  /** Seven concatenated single-category parts, in rank order, are in category order. */
  lemma {:induction false} OrderParts(p0: seq<Chunk>, p1: seq<Chunk>, p2: seq<Chunk>, p3: seq<Chunk>,
                                      p4: seq<Chunk>, p5: seq<Chunk>, p6: seq<Chunk>,
                                      employeeId: int, userId: int)
    requires Uniform(p0, Information, employeeId, userId) && Uniform(p1, Skills, employeeId, userId)
    requires Uniform(p2, ProfessionalExperience, employeeId, userId) && Uniform(p3, Education, employeeId, userId)
    requires Uniform(p4, Publication, employeeId, userId) && Uniform(p5, Distinction, employeeId, userId)
    requires Uniform(p6, Certifications, employeeId, userId)
    ensures InCategoryOrder(p0 + p1 + p2 + p3 + p4 + p5 + p6)
  {
    OrderedAppend([], p0, Information, employeeId, userId);
    assert [] + p0 == p0;
    OrderedAppend(p0, p1, Skills, employeeId, userId);
    OrderedAppend(p0 + p1, p2, ProfessionalExperience, employeeId, userId);
    OrderedAppend(p0 + p1 + p2, p3, Education, employeeId, userId);
    OrderedAppend(p0 + p1 + p2 + p3, p4, Publication, employeeId, userId);
    OrderedAppend(p0 + p1 + p2 + p3 + p4, p5, Distinction, employeeId, userId);
    OrderedAppend(p0 + p1 + p2 + p3 + p4 + p5, p6, Certifications, employeeId, userId);
  }

  lemma {:induction false} CompileOrder(r: EmployeeRecord, employeeId: int, userId: int)
    ensures InCategoryOrder(Compile(r, employeeId, userId))
    ensures Compile(r, employeeId, userId)[0].kind == Information
  {
    var name := NameOf(r);
    var p0 := [MakeChunk(Information, name, InfoContent(r), employeeId, userId)];
    var p1 := Joined(Skills, name, ListOrEmpty(r.skills), ",", employeeId, userId);
    var p2 := Section(ProfessionalExperience, name, ListOrEmpty(r.experiences), ExperienceContent, employeeId, userId);
    var p3 := Section(Education, name, ListOrEmpty(r.educations), EducationContent, employeeId, userId);
    var p4 := Section(Publication, name, ListOrEmpty(r.publications), PublicationContent, employeeId, userId);
    var p5 := Section(Distinction, name, ListOrEmpty(r.distinctions), DistinctionContent, employeeId, userId);
    var p6 := Joined(Certifications, name, ListOrEmpty(r.certifications), " | ", employeeId, userId);
    assert Compile(r, employeeId, userId) == p0 + p1 + p2 + p3 + p4 + p5 + p6;
    OrderParts(p0, p1, p2, p3, p4, p5, p6, employeeId, userId);
  }

  /** A promotion year of 0 is not dropped: only a missing or `null` value is. */
  lemma {:induction false} PromotionZeroKept(r: EmployeeRecord)
    requires r.promotionYears == Present(0)
    ensures InfoContent(r) == InfoBase(r) + "\nPromotion Year(s): 0" + ProfileLine(r)
  {
    assert IntToString(0) == "0";
  }

  /** The compiler reads only the name, email, job title, promotion years, profile
      and the six lists (where a missing list, `null` and `[]` are alike); `id`,
      `file_data`, `file_url` and `user_id` do not affect the chunks. */
  lemma {:induction false} CompileReadsOnly(a: EmployeeRecord, b: EmployeeRecord, employeeId: int, userId: int)
    requires a.fullName == b.fullName && a.email == b.email && a.jobTitle == b.jobTitle
    requires a.promotionYears == b.promotionYears && a.profile == b.profile
    requires ListOrEmpty(a.skills) == ListOrEmpty(b.skills)
    requires ListOrEmpty(a.experiences) == ListOrEmpty(b.experiences)
    requires ListOrEmpty(a.educations) == ListOrEmpty(b.educations)
    requires ListOrEmpty(a.publications) == ListOrEmpty(b.publications)
    requires ListOrEmpty(a.distinctions) == ListOrEmpty(b.distinctions)
    requires ListOrEmpty(a.certifications) == ListOrEmpty(b.certifications)
    ensures Compile(a, employeeId, userId) == Compile(b, employeeId, userId)
  {
    assert NameOf(a) == NameOf(b);
    assert InfoContent(a) == InfoContent(b);
  }
}
