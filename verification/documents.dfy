/** CV extraction from uploaded PDFs: each file's pages are stripped and joined,
    sent to the language model inside a fixed prompt, and the `{…}` span of the
    reply is parsed as the CV's data. Every file gets exactly one result, in upload
    order, and a failure on one file is recorded for that file alone. The PDF
    loader, the model and the JSON parser are parameters. */
module Documents {
  import opened Common
  import opened Text

  /** One uploaded file: its name, and the page texts the PDF loader produced for it
      (or the message of the exception it raised). */
  datatype Upload = Upload(filename: string, pages: Result<seq<string>, string>)

  /** The entry for one file: the parsed data, or the error message. */
  datatype FileResult<D> = Extracted(filename: string, data: D) | FileFailed(filename: string, error: string)

  /** The route's answer: the list of per-file entries (200) or an error. */
  datatype ExtractReply<D> = Results(results: seq<FileResult<D>>) | ExtractFailed(status: int, error: string)

  const NoFiles := "No PDF files uploaded"
  const NoApiKey := "GEMINI_APIKEY not found"
  const NoJson := "No valid JSON found in Gemini response."

  const PromptHead := "\nExtract structured data from this CV text in JSON with the following fields:\n"
    + "- full_name\n- email\n- job_titles\n- promotion_years (as integer)\n- profile\n"
    + "- skills (as list of strings)\n- professional_experiences (list)\n- educations (list)\n"
    + "- publications (list)\n- distinctions (list)\n- certifications (list)\n\n"
    + "Return only valid JSON with no explanation or markdown.\n\nHere is the CV text:\n\"\"\"\n"
  const PromptTail := "\n\"\"\"\n"

  /** The prompt template with the CV text filled in. */
  function Prompt(text: string): (p: string)
    ensures |p| == |PromptHead| + |text| + |PromptTail|
    ensures p[..|PromptHead|] == PromptHead && p[|PromptHead|..|PromptHead| + |text|] == text
  {
    PromptHead + text + PromptTail
  }

  /** Each page's text stripped, the pages joined by one space. */
  function PageText(pages: seq<string>): string
  {
    Join(seq(|pages|, i requires 0 <= i < |pages| => Strip(pages[i])), " ")
  }

  /** What happens to one file. `generate` is the model call (the reply text, or the
      exception's message); `parse` is `json.loads` (the value, or its message). */
  function ProcessFile<D>(u: Upload, generate: string -> Result<string, string>, parse: string -> Result<D, string>)
    : (r: FileResult<D>)
    ensures r.filename == u.filename
  {
    match u.pages
    case Err(e) => FileFailed(u.filename, e)
    case Ok(pages) =>
      match generate(Prompt(PageText(pages)))
      case Err(e) => FileFailed(u.filename, e)
      case Ok(reply) =>
        match JsonSpan(Strip(reply))
        case None => FileFailed(u.filename, NoJson)
        case Some(span) =>
          match parse(span)
          case Err(e) => FileFailed(u.filename, e)
          case Ok(data) => Extracted(u.filename, data)
  }

  /** The whole request: the two early refusals, a failure while setting up the model
      client (`setupError`), or one entry per file. */
  function Extraction<D>(uploads: seq<Upload>, apiKey: Option<string>, setupError: Option<string>,
                         generate: string -> Result<string, string>, parse: string -> Result<D, string>)
    : ExtractReply<D>
  {
    if uploads == [] then ExtractFailed(400, NoFiles)
    else if !Given(apiKey) then ExtractFailed(500, NoApiKey)
    else if setupError.Some? then ExtractFailed(500, setupError.value)
    else Results(seq(|uploads|, i requires 0 <= i < |uploads| => ProcessFile(uploads[i], generate, parse)))
  }

  /** `POST /api/documents`: the loop over the uploads, appending one entry per file. */
  method ExtractWithGemini<D>(uploads: seq<Upload>, apiKey: Option<string>, setupError: Option<string>,
                              generate: string -> Result<string, string>, parse: string -> Result<D, string>)
    returns (reply: ExtractReply<D>)
    ensures reply == Extraction(uploads, apiKey, setupError, generate, parse)
  {
    if uploads == [] {
      return ExtractFailed(400, NoFiles);
    }
    if !Given(apiKey) {
      return ExtractFailed(500, NoApiKey);
    }
    if setupError.Some? {
      return ExtractFailed(500, setupError.value);
    }
    var results: seq<FileResult<D>> := [];
    for k := 0 to |uploads|
      invariant |results| == k
      invariant forall i :: 0 <= i < k ==> results[i] == ProcessFile(uploads[i], generate, parse)
    {
      var entry := ProcessFile(uploads[k], generate, parse);
      results := results + [entry];
    }
    reply := Results(results);
  }

  /** One entry per uploaded file, in upload order, each under its file's name. */
  lemma {:induction false} OneEntryPerFile<D>(uploads: seq<Upload>, apiKey: Option<string>, setupError: Option<string>,
                                              generate: string -> Result<string, string>, parse: string -> Result<D, string>)
    requires uploads != [] && Given(apiKey) && setupError.None?
    ensures var reply := Extraction(uploads, apiKey, setupError, generate, parse);
      reply.Results? && |reply.results| == |uploads|
      && forall i :: 0 <= i < |uploads| ==> reply.results[i].filename == uploads[i].filename
  {
  }

  /** A file's outcome does not depend on the other files: changing the upload at one
      position (a PDF that fails to load, say) changes that position's entry only. */
  lemma {:induction false} FailureIsolated<D>(uploads: seq<Upload>, k: nat, other: Upload, apiKey: Option<string>,
                                              generate: string -> Result<string, string>, parse: string -> Result<D, string>)
    requires k < |uploads| && Given(apiKey)
    ensures var before := Extraction(uploads, apiKey, None, generate, parse);
      var after := Extraction(uploads[k := other], apiKey, None, generate, parse);
      before.Results? && after.Results? && |after.results| == |before.results|
      && (forall i :: 0 <= i < |uploads| && i != k ==> after.results[i] == before.results[i])
      && after.results[k] == ProcessFile(other, generate, parse)
  {
  }

  /** The parsed text is the reply's span from the first `{` to the last `}`; a reply
      without such a span gives the fixed error for that file. */
  lemma {:induction false} SpanParsed<D>(u: Upload, generate: string -> Result<string, string>, parse: string -> Result<D, string>)
    requires u.pages.Ok? && generate(Prompt(PageText(u.pages.value))).Ok?
    ensures var reply := Strip(generate(Prompt(PageText(u.pages.value))).value);
      && (!HasBracePair(reply) ==> ProcessFile(u, generate, parse) == FileFailed(u.filename, NoJson))
      && (ProcessFile(u, generate, parse).Extracted? ==>
            exists i, j :: 0 <= i < j < |reply| && reply[i] == '{' && reply[j] == '}'
              && '{' !in reply[..i] && '}' !in reply[j + 1..]
              && parse(reply[i..j + 1]) == Ok(ProcessFile(u, generate, parse).data))
  {
  }

  /** The text sent for a file is its pages, each stripped, joined by single spaces:
      no pages give the empty text, one page is sent stripped (so stripping it again
      changes nothing), and one more page appends a space and that page stripped. */
  lemma {:induction false} PageTextAppend(pages: seq<string>, page: string)
    ensures PageText([]) == ""
    ensures pages == [] ==> PageText(pages + [page]) == Strip(page)
    ensures Strip(PageText([page])) == PageText([page])
    ensures pages != [] ==> PageText(pages + [page]) == PageText(pages) + " " + Strip(page)
  {
    var stripped := seq(|pages|, i requires 0 <= i < |pages| => Strip(pages[i]));
    var more := pages + [page];
    assert seq(|more|, i requires 0 <= i < |more| => Strip(more[i])) == stripped + [Strip(page)];
    if pages != [] {
      JoinSnoc(stripped, Strip(page), " ");
    } else {
      assert stripped + [Strip(page)] == [Strip(page)];
    }
    assert seq(1, i requires 0 <= i < 1 => Strip([page][i])) == [Strip(page)];
    StripIdempotent(page);
  }
}
