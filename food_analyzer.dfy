/** The image analyzer of chain-server/food_analyzer.py: the checks made
    before an image is sent, the fixed shape of the message, the rule that
    every failure becomes an error record, and the batch loop. The model call
    and the JSON parsing behind it form one opaque, possibly failing call
    `llm`; the file system is a map from paths to bytes. */
module FoodAnalyzer {
  import opened Common
  import opened Text

  /** One element of a chat message's content list. */
  datatype Part = TextPart(text: string) | ImagePart(url: string, detail: string)

  datatype HumanMessage = HumanMessage(content: seq<Part>)

  const AllowedSuffixes: set<string> := {".jpg", ".jpeg", ".png", ".gif", ".webp"}
  const DataUrlPrefix := "data:image/jpeg;base64,"
  const NotFoundPrefix := "Изображение не найдено: "
  const UnsupportedPrefix := "Неподдерживаемый формат файла: "

  /** `Path(p).name`: the last component of a path. */
  function BaseName(path: string): (name: string)
    ensures '/' !in name
    ensures '/' !in path ==> name == path
    ensures '/' in path ==> name == AfterLast(path, '/').value
  {
    match AfterLast(path, '/')
    case None => path
    case Some(n) => n
  }

  /** The suffix of a file name: from its last '.' when that dot is neither
      its first nor its last character, else "". */
  function NameSuffix(name: string): (suffix: string)
    ensures suffix == "" || (|suffix| >= 2 && suffix[0] == '.' && '.' !in suffix[1..])
    ensures suffix != "" ==> |suffix| < |name| && name == name[..|name| - |suffix|] + suffix
    ensures suffix == "" <==> '.' !in name || name[|name| - 1] == '.' || (name[0] == '.' && '.' !in name[1..])
  {
    match LastIndexOf(name, '.')
    case None => ""
    case Some(i) =>
      if 0 < i < |name| - 1 then
        assert name == name[..i] + name[i..];
        assert name[1..][i - 1] == '.';
        assert name[|name| - 1] == name[i + 1..][|name| - i - 2];
        name[i..]
      else ""
  }

  /** `Path(p).suffix`: the suffix of the path's last component. */
  function Suffix(path: string): (suffix: string)
    ensures '/' !in path ==> suffix == NameSuffix(path)
    ensures '/' in path ==> suffix == NameSuffix(AfterLast(path, '/').value)
  {
    NameSuffix(BaseName(path))
  }

  /** A plain name `stem.ext` has the suffix ".ext". */
  lemma {:induction false} SuffixOfName(stem: string, ext: string)
    requires stem != "" && ext != ""
    requires '/' !in stem && '/' !in ext && '.' !in ext
    ensures Suffix(stem + "." + ext) == "." + ext
  {
    var name := stem + "." + ext;
    assert BaseName(name) == name by {
      assert name == stem + ['.'] + ext;
    }
    NameSuffixOfJoin(stem, ext);
  }

  /** A file in a directory has the suffix of its own name: the directories
      play no part, whatever dots they hold. */
  lemma {:induction false} SuffixOfPath(dir: string, stem: string, ext: string)
    requires stem != "" && ext != ""
    requires '/' !in stem && '/' !in ext && '.' !in ext
    ensures Suffix(dir + "/" + stem + "." + ext) == "." + ext
  {
    var name := stem + "." + ext;
    assert '/' !in name by {
      assert name == stem + ['.'] + ext;
    }
    assert BaseName(dir + "/" + stem + "." + ext) == name by {
      assert dir + "/" + stem + "." + ext == dir + ['/'] + name;
      AfterLastOfJoin(dir, '/', name);
    }
    NameSuffixOfJoin(stem, ext);
  }

  lemma NameSuffixOfJoin(stem: string, ext: string)
    requires stem != "" && ext != "" && '.' !in ext
    ensures NameSuffix(stem + "." + ext) == "." + ext
  {
    var name := stem + "." + ext;
    assert LastIndexOf(name, '.') == Some(|stem|) by {
      assert name == stem + ['.'] + ext;
      LastIndexOfJoin(stem, '.', ext);
    }
    assert name[|stem|..] == "." + ext;
  }

  /** A name that starts with its only '.' (".jpg") has no suffix. */
  lemma {:induction false} DotFileHasNoSuffix(ext: string)
    requires '/' !in ext && '.' !in ext
    ensures Suffix("." + ext) == ""
  {
    var name := "." + ext;
    assert '/' !in name by {
      assert name == [] + ['.'] + ext;
    }
    AfterLastOfJoin([], '.', ext);
    assert LastIndexOf(name, '.') == Some(0);
  }

  /** `_prepare_image_message`: a missing file fails first, then an
      unsupported suffix; otherwise the image part always claims JPEG and
      asks for high detail, whatever the file's real format. */
  function PrepareImagePart(disk: map<string, seq<bv8>>, path: string, encode: seq<bv8> -> string)
    : (r: Result<Part, string>)
    ensures path !in disk ==> r == Err(NotFoundPrefix + path)
    ensures path in disk ==> (r.Ok? <==> Lower(Suffix(path)) in AllowedSuffixes)
    ensures path in disk && r.Err? ==> r.error == UnsupportedPrefix + Suffix(path)
    ensures r.Ok? ==> r.value.ImagePart? && r.value.detail == "high"
    ensures r.Ok? ==> r.value.url == DataUrlPrefix + encode(disk[path])
  {
    if path !in disk then Err(NotFoundPrefix + path)
    else if Lower(Suffix(path)) !in AllowedSuffixes then Err(UnsupportedPrefix + Suffix(path))
    else Ok(ImagePart(DataUrlPrefix + encode(disk[path]), "high"))
  }

  /** The record `analyze_image` returns for any failure. */
  function ErrorRecord(message: string): (r: Record)
    ensures r.Keys == {"error", "dishes", "total_weight", "confidence"}
    ensures r["error"] == Str(message)
    ensures !Truthy(r["dishes"]) && !Truthy(r["total_weight"]) && !Truthy(r["confidence"])
  {
    map["error" := Str(message), "dishes" := List([]), "total_weight" := Int(0), "confidence" := Real(0.0)]
  }

  /** `FoodImageAnalyzer`. Its fields are set once, by the constructor. */
  class Analyzer {
    const modelName: string
    const systemPrompt: string
    const formatInstructions: string   // what the JSON parser asks of the model's answer

    constructor(modelName: string, systemPrompt: string, formatInstructions: string)
      ensures this.modelName == modelName
      ensures this.systemPrompt == systemPrompt
      ensures this.formatInstructions == formatInstructions
    {
      this.modelName := modelName;
      this.systemPrompt := systemPrompt;
      this.formatInstructions := formatInstructions;
    }

    /** The text part: the system prompt followed by the format instructions. */
    function PromptText(): string {
      systemPrompt + "\n\nФормат ответа:\n" + formatInstructions
    }

    /** `create_message`: one human message whose content is the text part
        followed by the image part; the image checks' failure propagates. */
    function CreateMessage(disk: map<string, seq<bv8>>, path: string, encode: seq<bv8> -> string)
      : (r: Result<seq<HumanMessage>, string>)
      ensures r.Err? <==> PrepareImagePart(disk, path, encode).Err?
      ensures r.Err? ==> r.error == PrepareImagePart(disk, path, encode).error
      ensures r.Ok? ==> |r.value| == 1 && |r.value[0].content| == 2
      ensures r.Ok? ==> r.value[0].content[0] == TextPart(PromptText())
      ensures r.Ok? ==> r.value[0].content[1] == PrepareImagePart(disk, path, encode).value
    {
      match PrepareImagePart(disk, path, encode)
      case Err(e) => Err(e)
      case Ok(image) => Ok([HumanMessage([TextPart(PromptText()), image])])
    }

    /** `analyze_image`: never fails. A missing file, an unsupported suffix or
        a failing model call gives the error record with that message;
        otherwise the parsed answer is returned unchanged. */
    function AnalyzeImage(disk: map<string, seq<bv8>>, path: string, encode: seq<bv8> -> string,
                          llm: seq<HumanMessage> -> Result<Record, string>)
      : (r: Record)
      ensures path !in disk ==> r == ErrorRecord(NotFoundPrefix + path)
      ensures path in disk && Lower(Suffix(path)) !in AllowedSuffixes ==>
        r == ErrorRecord(UnsupportedPrefix + Suffix(path))
      ensures CreateMessage(disk, path, encode).Ok? ==>
        var answer := llm(CreateMessage(disk, path, encode).value);
        r == if answer.Ok? then answer.value else ErrorRecord(answer.error)
    {
      match CreateMessage(disk, path, encode)
      case Err(e) => ErrorRecord(e)
      case Ok(messages) =>
        match llm(messages)
        case Err(e) => ErrorRecord(e)
        case Ok(answer) => answer
    }

    /** `analyze_batch`: one result per path, in the order of the paths. */
    method AnalyzeBatch(disk: map<string, seq<bv8>>, paths: seq<string>, encode: seq<bv8> -> string,
                        llm: seq<HumanMessage> -> Result<Record, string>)
      returns (results: seq<Record>)
      ensures |results| == |paths|
      ensures forall i :: 0 <= i < |paths| ==> results[i] == AnalyzeImage(disk, paths[i], encode, llm)
    {
      results := [];
      for i := 0 to |paths|
        invariant |results| == i
        invariant forall k :: 0 <= k < i ==> results[k] == AnalyzeImage(disk, paths[k], encode, llm)
      {
        var result := AnalyzeImage(disk, paths[i], encode, llm);
        results := results + [result];
      }
    }
  }
}
