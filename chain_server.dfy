/** The request handling of chain-server/server.py: which image source a
    POST /analyze request uses and the 400 errors, the stripping of a
    data-URL prefix, the temporary file of an inline image and its removal,
    the service objects set at start-up and cleared at shut-down, and the two
    LangServe wrappers. The nutrition searcher is an opaque call `search`,
    base64 decoding an opaque, possibly failing call `decode`. */
module ChainServer {
  import opened Common
  import opened Text
  import FoodAnalyzer

  /** The body of POST /analyze; every field is optional. */
  datatype ImageRequest = ImageRequest(imagePath: Option<string>, imageBase64: Option<string>, filename: Option<string>)

  /** Where the image to analyse comes from. */
  datatype Source = LocalFile(path: string) | Inline(payload: string, filename: string)

  /** What an endpoint answers: a result body or an HTTP error. */
  datatype Outcome = Answer(body: Record) | HttpError(status: nat, detail: string)

  const AnalyzerNotReady := "Анализатор не инициализирован"
  const SearcherNotReady := "Анализатор питательных веществ не инициализирован"
  const NutrientsSearcherNotReady := "Поисковик еды не инициализирован"
  const NeedFilenameDetail := "Для base64 изображения нужен filename"
  const NoSourceDetail := "Укажите image_path или image_base64"
  const NoImagePathMessage := "Не указан путь к изображению"
  const NoDishMessage := "Не указано блюдо для анализа"
  const NonStringPathMessage := "image_path is not a string"
  const TempDir := "temp_images"

  /** The source-selection branch of `analyze_image`: a non-empty
      `image_path` wins and the other fields are then ignored; otherwise a
      non-empty `image_base64` needs a non-empty `filename`; with neither
      source the request is refused. */
  function SelectSource(req: ImageRequest): (r: Result<Source, string>)
    ensures Given(req.imagePath) ==> r == Ok(LocalFile(req.imagePath.value))
    ensures r.Ok? && r.value.Inline? <==> !Given(req.imagePath) && Given(req.imageBase64) && Given(req.filename)
    ensures r.Ok? && r.value.Inline? ==> r.value == Inline(req.imageBase64.value, req.filename.value)
    ensures r.Err? <==> !Given(req.imagePath) && !(Given(req.imageBase64) && Given(req.filename))
    ensures r.Err? ==> r.error == if Given(req.imageBase64) then NeedFilenameDetail else NoSourceDetail
  {
    if Given(req.imagePath) then Ok(LocalFile(req.imagePath.value))
    else if Given(req.imageBase64) then
      if !Given(req.filename) then Err(NeedFilenameDetail)
      else Ok(Inline(req.imageBase64.value, req.filename.value))
    else Err(NoSourceDetail)
  }

  /** The prefix stripping of `_save_base64_image`: with a ',' in the payload
      only the text between the first ',' and the next (or the end) is
      decoded; otherwise the payload is decoded as it is. */
  function StripDataUrlPrefix(payload: string): (r: string)
    ensures ',' !in r
    ensures ',' !in payload ==> r == payload
    ensures ',' in payload ==> r == SecondField(payload, ',')
  {
    if ',' in payload then SecondField(payload, ',') else payload
  }

  /** A data URL "header,body" loses exactly its header. */
  lemma {:induction false} StripDataUrlHeader(header: string, body: string)
    requires ',' !in header && ',' !in body
    ensures StripDataUrlPrefix(header + "," + body) == body
  {
    SecondFieldOfJoin(header, ',', body);
  }

  /** Stripping twice is stripping once. */
  lemma StripIdempotent(payload: string)
    ensures StripDataUrlPrefix(StripDataUrlPrefix(payload)) == StripDataUrlPrefix(payload)
  {
  }

  /** `str(Path("temp_images") / filename)`: an absolute file name replaces
      the directory. */
  function TempPath(filename: string): (path: string)
    ensures |filename| > 0 && filename[0] == '/' ==> path == filename
    ensures !(|filename| > 0 && filename[0] == '/') ==>
      |path| == |TempDir| + 1 + |filename| && path[..|TempDir| + 1] == TempDir + "/" && path[|TempDir| + 1..] == filename
  {
    if |filename| > 0 && filename[0] == '/' then filename else TempDir + "/" + filename
  }

  /** A plain file name keeps its name, and so its suffix, under the
      temporary directory: the analyzer judges the name the client sent. */
  lemma TempPathKeepsName(filename: string)
    requires '/' !in filename
    ensures FoodAnalyzer.BaseName(TempPath(filename)) == filename
  {
    assert TempPath(filename) == TempDir + ['/'] + filename;
    AfterLastOfJoin(TempDir, '/', filename);
  }

  /** The path the analyzer is given for a source. */
  function AnalysedPath(src: Source): string {
    match src
    case LocalFile(p) => p
    case Inline(_, name) => TempPath(name)
  }

  /** The cleanup rule as the handler writes it: the analysed path is removed
      whenever the request carries a non-empty `image_base64`, even when a
      local `image_path` won the selection. */
  function RemovedAfterAnalysisAsWritten(req: ImageRequest, analysedPath: string): (r: Option<string>)
    ensures r.Some? <==> Given(req.imageBase64)
    ensures r.Some? ==> r.value == analysedPath
  {
    if Given(req.imageBase64) then Some(analysedPath) else None
  }

  /** The cleanup rule the handler's comment describes: remove the temporary
      file, and only when one was written, that is on the inline branch. */
  function RemovedAfterAnalysis(src: Source): (r: Option<string>)
    ensures r.Some? <==> src.Inline?
    ensures r.Some? ==> r.value == TempPath(src.filename) == AnalysedPath(src)
  {
    if src.Inline? then Some(TempPath(src.filename)) else None
  }

  /** The rule as written removes a caller's own file: with both an
      `image_path` and an `image_base64`, the local file is analysed and
      then deleted, though the server never wrote it. */
  lemma AsWrittenDeletesCallerFile()
    ensures var req := ImageRequest(Some("photos/salad.jpg"), Some("QUJD"), None);
      && SelectSource(req) == Ok(LocalFile("photos/salad.jpg"))
      && RemovedAfterAnalysisAsWritten(req, AnalysedPath(SelectSource(req).value)) == Some("photos/salad.jpg")
      && RemovedAfterAnalysis(SelectSource(req).value) == None
  {
  }

  /** The two rules differ only on that case: when the local path did not
      win, or no `image_base64` was sent, they remove the same file. */
  lemma CleanupRulesAgreeOtherwise(req: ImageRequest)
    requires SelectSource(req).Ok?
    requires !(Given(req.imagePath) && Given(req.imageBase64))
    ensures var src := SelectSource(req).value;
      RemovedAfterAnalysisAsWritten(req, AnalysedPath(src)) == RemovedAfterAnalysis(src)
  {
  }

  /** Writing a file and removing it again leaves the other files as they were. */
  lemma WriteThenRemove(disk: map<string, seq<bv8>>, path: string, bytes: seq<bv8>)
    ensures disk[path := bytes] - {path} == disk - {path}
  {
    assert (disk[path := bytes] - {path}).Keys == (disk - {path}).Keys;
  }

  /** Values `len` accepts. */
  predicate Sized(v: Value) {
    v.Str? || v.List? || v.Dict?
  }

  /** Values a float format such as `.2%` or `.1f` accepts: numbers, and
      booleans, which Python treats as integers. */
  predicate Numeric(v: Value) {
    v.Bool? || v.Int? || v.Real?
  }

  /** Whether `/analyze` can write its log line about a result: an `error`
      entry is logged as it is; otherwise `len` of `dishes` (default []) and
      the `.2%` format of `confidence` (default 0) must both apply. */
  predicate AnalysisLogs(result: Record)
    ensures Truthy(Get(result, "error", Null)) ==> AnalysisLogs(result)
    ensures "dishes" !in result && "confidence" !in result ==> AnalysisLogs(result)
    ensures !Truthy(Get(result, "error", Null)) && "confidence" in result && result["confidence"].Str? ==> !AnalysisLogs(result)
    ensures !Truthy(Get(result, "error", Null)) && "dishes" in result && result["dishes"].Null? ==> !AnalysisLogs(result)
  {
    Truthy(Get(result, "error", Null))
    || (Sized(Get(result, "dishes", List([]))) && Numeric(Get(result, "confidence", Int(0))))
  }

  /** The same for `/analyze-nutrients`: `calories` and `protein` (default 0)
      must take the `.1f` format. */
  predicate NutrientsLogs(result: Record)
    ensures Truthy(Get(result, "error", Null)) ==> NutrientsLogs(result)
    ensures "calories" !in result && "protein" !in result ==> NutrientsLogs(result)
    ensures !Truthy(Get(result, "error", Null)) && "calories" in result && result["calories"].Null? ==> !NutrientsLogs(result)
    ensures !Truthy(Get(result, "error", Null)) && "protein" in result && result["protein"].Str? ==> !NutrientsLogs(result)
  {
    Truthy(Get(result, "error", Null))
    || (Numeric(Get(result, "calories", Int(0))) && Numeric(Get(result, "protein", Int(0))))
  }

  /** The detail of the 500 a failed log line causes. Python puts the
      exception's own text there; the model uses this fixed text. */
  const LogFailureDetail := "unsupported value in the analysis result"

  /** The analyzer's own error record can always be logged, so its failures
      never turn into that 500. */
  lemma ErrorRecordLogs(message: string)
    ensures AnalysisLogs(FoodAnalyzer.ErrorRecord(message))
  {
    var r := FoodAnalyzer.ErrorRecord(message);
    if message == "" {
      assert Get(r, "dishes", List([])) == List([]);
      assert Get(r, "confidence", Int(0)) == Real(0.0);
    }
  }

  /** The chain server's global services and the files on its disk. */
  class Server {
    var analyzer: Option<FoodAnalyzer.Analyzer>   // the module-level `analyzer`
    var searcherReady: bool                      // `food_searcher is not None`
    var disk: map<string, seq<bv8>>

    constructor(disk: map<string, seq<bv8>>)
      ensures analyzer == None && !searcherReady && this.disk == disk
    {
      analyzer := None;
      searcherReady := false;
      this.disk := disk;
    }

    /** Start-up of `lifespan`: without an OpenAI key start-up fails and no
        service is created; otherwise both services are created. */
    method Startup(openAiKeySet: bool, modelName: string, systemPrompt: string, formatInstructions: string)
      returns (started: bool)
      modifies this
      ensures started == openAiKeySet
      ensures disk == old(disk)
      ensures !started ==> analyzer == old(analyzer) && searcherReady == old(searcherReady)
      ensures started ==> analyzer.Some? && fresh(analyzer.value) && searcherReady
      ensures started ==> analyzer.value.modelName == modelName && analyzer.value.systemPrompt == systemPrompt
      ensures started ==> analyzer.value.formatInstructions == formatInstructions
    {
      if !openAiKeySet {
        return false;
      }
      var a := new FoodAnalyzer.Analyzer(modelName, systemPrompt, formatInstructions);
      analyzer := Some(a);
      searcherReady := true;
      started := true;
    }

    /** Shut-down of `lifespan`: both services are dropped. */
    method Shutdown()
      modifies this
      ensures analyzer == None && !searcherReady && disk == old(disk)
    {
      analyzer := None;
      searcherReady := false;
    }

    /** POST /analyze. Without an analyzer the answer is 500; a request
        without a usable source is 400 and nothing is analysed or written. A
        local path is analysed in place. An inline image is stripped, decoded
        (a decoding failure is 500), written to its temporary path and
        analysed. A result the handler cannot log is a 500 raised before the
        cleanup, so the temporary file stays; otherwise that temporary file,
        and no other, is removed (the corrected cleanup rule). */
    method Analyze(req: ImageRequest, decode: string -> Result<seq<bv8>, string>, encode: seq<bv8> -> string,
                   llm: seq<FoodAnalyzer.HumanMessage> -> Result<Record, string>)
      returns (out: Outcome)
      modifies this`disk
      ensures analyzer.None? ==> out == HttpError(500, AnalyzerNotReady) && disk == old(disk)
      ensures analyzer.Some? ==>
        match SelectSource(req)
        case Err(detail) => out == HttpError(400, detail) && disk == old(disk)
        case Ok(LocalFile(p)) =>
          var result := analyzer.value.AnalyzeImage(old(disk), p, encode, llm);
          && disk == old(disk)
          && out == (if AnalysisLogs(result) then Answer(result) else HttpError(500, LogFailureDetail))
        case Ok(Inline(payload, name)) =>
          match decode(StripDataUrlPrefix(payload))
          case Err(e) => out == HttpError(500, e) && disk == old(disk)
          case Ok(bytes) =>
            var written := old(disk)[TempPath(name) := bytes];
            var result := analyzer.value.AnalyzeImage(written, TempPath(name), encode, llm);
            if AnalysisLogs(result) then out == Answer(result) && disk == old(disk) - {TempPath(name)}
            else out == HttpError(500, LogFailureDetail) && disk == written
    {
      if analyzer.None? {
        return HttpError(500, AnalyzerNotReady);
      }
      var a := analyzer.value;
      var source := SelectSource(req);
      match source {
        case Err(detail) =>
          out := HttpError(400, detail);
        case Ok(LocalFile(p)) =>
          var result := a.AnalyzeImage(disk, p, encode, llm);
          if !AnalysisLogs(result) {
            return HttpError(500, LogFailureDetail);
          }
          assert RemovedAfterAnalysis(source.value).None?;
          out := Answer(result);
        case Ok(Inline(payload, name)) =>
          var decoded := decode(StripDataUrlPrefix(payload));
          if decoded.Err? {
            return HttpError(500, decoded.error);
          }
          var imagePath := TempPath(name);
          ghost var before := disk;
          var written := disk[imagePath := decoded.value];
          disk := written;
          var result := a.AnalyzeImage(written, imagePath, encode, llm);
          if !AnalysisLogs(result) {
            return HttpError(500, LogFailureDetail);
          }
          // Only the file written above is removed; a failed removal is only logged.
          var removed := RemovedAfterAnalysis(source.value);
          assert removed.value == imagePath;
          disk := disk - {removed.value};
          WriteThenRemove(before, imagePath, decoded.value);
          out := Answer(result);
      }
    }

    /** POST /analyze-nutrients: 500 without a searcher; a failing searcher
        is 500 with its message, and so is a result the handler cannot log;
        otherwise the searcher's result as it is. */
    function AnalyzeNutrients(dish: Value, amount: Value, unit: Value,
                              search: (Value, Value, Value) -> Result<Record, string>)
      : (out: Outcome)
      reads this
      ensures !searcherReady ==> out == HttpError(500, NutrientsSearcherNotReady)
      ensures searcherReady ==>
        match search(dish, amount, unit)
        case Err(e) => out == HttpError(500, e)
        case Ok(result) => out == if NutrientsLogs(result) then Answer(result) else HttpError(500, LogFailureDetail)
      ensures out.Answer? <==> searcherReady && search(dish, amount, unit).Ok? && NutrientsLogs(search(dish, amount, unit).value)
    {
      if !searcherReady then HttpError(500, NutrientsSearcherNotReady)
      else
        match search(dish, amount, unit)
        case Err(e) => HttpError(500, e)
        case Ok(result) => if NutrientsLogs(result) then Answer(result) else HttpError(500, LogFailureDetail)
    }

    /** `analyze_wrapper`: an error record without an analyzer or without a
        non-empty `image_path`; otherwise the analyzer's result unchanged. */
    function AnalyzeWrapper(inputs: Record, encode: seq<bv8> -> string,
                            llm: seq<FoodAnalyzer.HumanMessage> -> Result<Record, string>)
      : (r: Record)
      reads this
      ensures analyzer.None? ==> r == map["error" := Str(AnalyzerNotReady)]
      ensures analyzer.Some? && !Truthy(Get(inputs, "image_path", Null)) ==>
        r == map["error" := Str(NoImagePathMessage)]
      ensures analyzer.Some? ==>
        match Get(inputs, "image_path", Null)
        case Str(p) => p != "" ==> r == analyzer.value.AnalyzeImage(disk, p, encode, llm)
        case _ => true
    {
      if analyzer.None? then map["error" := Str(AnalyzerNotReady)]
      else
        match Get(inputs, "image_path", Null)
        case Str(p) =>
          if p == "" then map["error" := Str(NoImagePathMessage)]
          else analyzer.value.AnalyzeImage(disk, p, encode, llm)
        case v =>
          if !Truthy(v) then map["error" := Str(NoImagePathMessage)]
          else FoodAnalyzer.ErrorRecord(NonStringPathMessage)
    }

    /** `analysis_wrapper`: an error record without a searcher or without a
        non-empty `dish`; otherwise the searcher's outcome unchanged, called
        with `amount` 100 and `unit` "грамм" when those keys are absent. An
        `Err` is the searcher's exception, which the wrapper lets through. */
    function AnalysisWrapper(inputs: Record, search: (Value, Value, Value) -> Result<Record, string>)
      : (r: Result<Record, string>)
      reads this
      ensures !searcherReady ==> r == Ok(map["error" := Str(SearcherNotReady)])
      ensures searcherReady && !Truthy(Get(inputs, "dish", Null)) ==> r == Ok(map["error" := Str(NoDishMessage)])
      ensures searcherReady && Truthy(Get(inputs, "dish", Null)) ==>
        r == search(inputs["dish"],
                    if "amount" in inputs then inputs["amount"] else Int(100),
                    if "unit" in inputs then inputs["unit"] else Str("грамм"))
    {
      if !searcherReady then Ok(map["error" := Str(SearcherNotReady)])
      else
        var dish := Get(inputs, "dish", Null);
        var amount := Get(inputs, "amount", Int(100));
        var unit := Get(inputs, "unit", Str("грамм"));
        if !Truthy(dish) then Ok(map["error" := Str(NoDishMessage)])
        else search(dish, amount, unit)
    }
  }
}
