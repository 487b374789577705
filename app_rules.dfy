/** The pure rules inside the Flask handlers of pyapp-web/app.py: the
    extension validator, the CRC tag, the stored-name construction, the order
    of the upload checks, the password-reset form check and the
    add-missing-columns migration planner. */
module AppRules {
  import opened Common
  import opened Text

  // ---------------------------------------------------------------------------
  // Extension validator
  // ---------------------------------------------------------------------------

  const AllowedExtensions: set<string> := {"png", "jpg", "jpeg", "gif", "webp"}

  /** `allowed_file`: the name holds a '.' and the text after the last '.',
      lower-cased, is an allowed extension. */
  predicate AllowedFile(filename: string) {
    '.' in filename && Lower(AfterLast(filename, '.').value) in AllowedExtensions
  }

  /** The '.' at `i` is the last one of `f`. */
  predicate LastDotAt(f: string, i: int) {
    0 <= i < |f| && f[i] == '.' && '.' !in f[i + 1..]
  }

  /** An independent reading of `allowed_file`: the name has a last '.' and
      the text after it, lower-cased, is an allowed extension. */
  lemma {:induction false} AllowedFileSpec(f: string)
    ensures AllowedFile(f) <==> exists i :: LastDotAt(f, i) && Lower(f[i + 1..]) in AllowedExtensions
  {
    if AllowedFile(f) {
      var i := LastIndexOf(f, '.').value;
      assert LastDotAt(f, i);
    } else if exists i :: LastDotAt(f, i) && Lower(f[i + 1..]) in AllowedExtensions {
      var i :| LastDotAt(f, i) && Lower(f[i + 1..]) in AllowedExtensions;
      LastDotIsAfterLast(f, i);
      assert false;
    }
  }

  lemma LastDotIsAfterLast(f: string, i: int)
    requires LastDotAt(f, i)
    ensures AfterLast(f, '.') == Some(f[i + 1..])
  {
    assert f == f[..i] + ['.'] + f[i + 1..];
    AfterLastOfJoin(f[..i], '.', f[i + 1..]);
  }

  /** Only the final extension counts: whatever comes before the last '.'
      (other dots included) plays no part. */
  lemma {:induction false} OnlyFinalExtensionCounts(stem: string, ext: string)
    requires '.' !in ext
    ensures AllowedFile(stem + "." + ext) <==> Lower(ext) in AllowedExtensions
  {
    AfterLastOfJoin(stem, '.', ext);
  }

  /** "a.exe.png" passes: only the final extension counts. */
  lemma DoubleExtensionAccepted()
    ensures AllowedFile("a.exe.png")
  {
    assert "a.exe.png" == "a.exe" + "." + "png";
    assert Lower("png") == "png";
    OnlyFinalExtensionCounts("a.exe", "png");
  }

  /** "a.png.exe" fails: an allowed extension before the last '.' is ignored. */
  lemma HiddenAllowedExtensionRejected()
    ensures !AllowedFile("a.png.exe")
  {
    assert "a.png.exe" == "a.png" + "." + "exe";
    assert Lower("exe") == "exe";
    OnlyFinalExtensionCounts("a.png", "exe");
  }

  /** "X.JPG" passes: the extension is compared lower-cased. */
  lemma UpperCaseExtensionAccepted()
    ensures AllowedFile("X.JPG")
  {
    assert "X.JPG" == "X" + "." + "JPG";
    assert Lower("JPG") == "jpg";
    OnlyFinalExtensionCounts("X", "JPG");
  }

  // ---------------------------------------------------------------------------
  // The CRC tag: f"{crc32(data) & 0xFFFFFFFF:08x}"
  // ---------------------------------------------------------------------------

  const TwoTo32: nat := 0x1_0000_0000

  predicate IsLowerHexDigit(c: char) {
    '0' <= c <= '9' || 'a' <= c <= 'f'
  }

  predicate IsLowerHex(s: string) {
    forall i :: 0 <= i < |s| ==> IsLowerHexDigit(s[i])
  }

  function HexDigit(d: nat): char
    requires d < 16
  {
    if d < 10 then ('0' as int + d) as char else ('a' as int + d - 10) as char
  }

  function HexValue(c: char): nat
    requires IsLowerHexDigit(c)
  {
    if c <= '9' then c as int - '0' as int else c as int - 'a' as int + 10
  }

  function Pow16(w: nat): nat {
    if w == 0 then 1 else 16 * Pow16(w - 1)
  }

  /** Python's `format(n, "0{width}x")` for `n < 16^width`: `width` lower-case
      hex digits, most significant first, zero-padded. */
  function ToHex(n: nat, width: nat): (r: string)
    requires n < Pow16(width)
    ensures |r| == width && IsLowerHex(r)
  {
    if width == 0 then "" else ToHex(n / 16, width - 1) + [HexDigit(n % 16)]
  }

  /** The number a string of lower-case hex digits denotes. */
  function ParseHex(s: string): nat
    requires IsLowerHex(s)
  {
    if s == "" then 0 else 16 * ParseHex(s[..|s| - 1]) + HexValue(s[|s| - 1])
  }

  /** Reading the digits back gives the number, when it fits the width. */
  lemma {:induction false} ParseToHex(n: nat, width: nat)
    requires n < Pow16(width)
    ensures ParseHex(ToHex(n, width)) == n
  {
    if width > 0 {
      var s := ToHex(n, width);
      assert s[..|s| - 1] == ToHex(n / 16, width - 1);
      ParseToHex(n / 16, width - 1);
      assert HexValue(HexDigit(n % 16)) == n % 16;
    }
  }

  /** The CRC tag of an upload: the checksum masked to 32 bits (Python's
      `& 0xFFFFFFFF` equals Euclidean `% 2^32`, negative inputs included),
      written as exactly 8 lower-case hex digits that read back to it. */
  function CrcTag(crc: int): (tag: string)
    ensures |tag| == 8 && IsLowerHex(tag)
    ensures ParseHex(tag) == crc % TwoTo32
  {
    var masked := crc % TwoTo32;
    assert Pow16(8) == TwoTo32;
    ParseToHex(masked, 8);
    ToHex(masked, 8)
  }

  /** Two uploads get the same tag exactly when their checksums agree on the
      low 32 bits, so the tag can be compared to find duplicates. */
  lemma CrcTagIdentifiesChecksum(a: int, b: int)
    ensures CrcTag(a) == CrcTag(b) <==> a % TwoTo32 == b % TwoTo32
  {
  }

  // ---------------------------------------------------------------------------
  // Stored name: f"{uuid4().hex}.{secure_filename(name).rsplit('.', 1)[1].lower()}"
  // ---------------------------------------------------------------------------

  /** The name an upload is stored under, from the random token and the
      sanitised client name; `None` where Python raises IndexError because
      the sanitiser left no '.' in the name. */
  function StoredName(token: string, sanitised: string): Option<string> {
    match AfterLast(sanitised, '.')
    case None => None
    case Some(ext) => Some(token + "." + Lower(ext))
  }

  /** A stored name exists exactly when the sanitised name has a '.'; it is
      the token, a '.', and the lower-cased final extension, and that
      extension is again its final extension, so it passes `allowed_file`
      exactly when the sanitised name does. */
  lemma {:induction false} StoredNameShape(token: string, sanitised: string)
    ensures StoredName(token, sanitised).Some? <==> '.' in sanitised
    ensures StoredName(token, sanitised).Some? ==>
      var name := StoredName(token, sanitised).value;
      var ext := AfterLast(sanitised, '.').value;
      && name[..|token|] == token
      && AfterLast(name, '.') == Some(Lower(ext))
      && (AllowedFile(name) <==> AllowedFile(sanitised))
  {
    if '.' in sanitised {
      var ext := AfterLast(sanitised, '.').value;
      LowerKeepsDotFree(ext);
      AfterLastOfJoin(token, '.', Lower(ext));
      LowerIdempotent(ext);
    }
  }

  /** The URL `url_for("uploaded_file", filename=name)` gives a stored name. */
  function UploadUrl(name: string): string {
    "/uploads/" + name
  }

  // ---------------------------------------------------------------------------
  // The ordered checks of POST /upload
  // ---------------------------------------------------------------------------

  /** One part of a multipart request: the client's file name and the bytes. */
  datatype FilePart = FilePart(filename: string, content: seq<bv8>)

  datatype UploadVerdict =
    | NotConfirmed
    | NoFilePart
    | EmptyFilename
    | BadFormat
    | Accepted(part: FilePart)

  /** The checks of `/upload`, first failure wins: a confirmed user, a "file"
      part, a non-empty file name, an allowed extension. */
  function UploadCheck(confirmed: bool, files: map<string, FilePart>): (v: UploadVerdict)
    ensures v.Accepted? <==>
      confirmed && "file" in files && files["file"].filename != "" && AllowedFile(files["file"].filename)
    ensures v.Accepted? ==> v.part == files["file"]
    ensures v == NotConfirmed <==> !confirmed
    ensures v == NoFilePart <==> confirmed && "file" !in files
    ensures v == EmptyFilename <==> confirmed && "file" in files && files["file"].filename == ""
    ensures v == BadFormat <==>
      confirmed && "file" in files && files["file"].filename != "" && !AllowedFile(files["file"].filename)
  {
    if !confirmed then NotConfirmed
    else if "file" !in files then NoFilePart
    else if files["file"].filename == "" then EmptyFilename
    else if !AllowedFile(files["file"].filename) then BadFormat
    else Accepted(files["file"])
  }

  /** The HTTP status and JSON error message of a rejected upload. */
  function Rejection(v: UploadVerdict): (r: (nat, string))
    requires !v.Accepted?
    ensures r.0 == 403 <==> v == NotConfirmed
    ensures r.0 == 400 || r.0 == 403
  {
    match v
    case NotConfirmed => (403, "Подтвердите email")
    case NoFilePart => (400, "Файл не найден")
    case EmptyFilename => (400, "Имя файла отсутствует")
    case BadFormat => (400, "Недопустимый формат")
  }

  // ---------------------------------------------------------------------------
  // The password-reset form
  // ---------------------------------------------------------------------------

  const FillBothMessage := "Заполните оба поля"
  const MismatchMessage := "Пароли не совпадают"
  const PasswordUpdatedMessage := "Пароль обновлён. Теперь вы можете войти."

  datatype ResetVerdict = FillBoth | Mismatch | Accept

  /** The reset form's check: both fields filled, then equal. */
  function ResetCheck(password: string, confirm: string): (v: ResetVerdict)
    ensures v == Accept <==> password != "" && password == confirm
    ensures v == FillBoth <==> password == "" || confirm == ""
    ensures v == Mismatch <==> password != "" && confirm != "" && password != confirm
  {
    if password == "" || confirm == "" then FillBoth
    else if password != confirm then Mismatch
    else Accept
  }

  // ---------------------------------------------------------------------------
  // The add-missing-columns migration in create_app
  // ---------------------------------------------------------------------------

  const TextColumnDdl := "ALTER TABLE upload ADD COLUMN text VARCHAR(255) NOT NULL DEFAULT '';"
  const CrcColumnDdl := "ALTER TABLE upload ADD COLUMN crc VARCHAR(16) NOT NULL DEFAULT '';"

  /** The ALTER statements for the `upload` columns missing from `columns`. */
  function MigrationPlan(columns: set<string>): (plan: seq<string>)
    ensures TextColumnDdl in plan <==> "text" !in columns
    ensures CrcColumnDdl in plan <==> "crc" !in columns
    ensures forall k :: 0 <= k < |plan| ==> plan[k] == TextColumnDdl || plan[k] == CrcColumnDdl
    ensures |plan| == |{"text", "crc"} - columns|
    ensures |plan| == 2 ==> plan[0] == TextColumnDdl && plan[1] == CrcColumnDdl
  {
    (if "text" !in columns then [TextColumnDdl] else [])
      + (if "crc" !in columns then [CrcColumnDdl] else [])
  }

  /** The migration step of `create_app`: build the statement list by
      appends, open a transaction only when it is non-empty, and execute the
      statements in list order. Returns whether a transaction was opened and
      the statements executed. */
  method Migrate(columns: set<string>) returns (began: bool, executed: seq<string>)
    ensures began <==> !("text" in columns && "crc" in columns)
    ensures executed == MigrationPlan(columns)
  {
    var alterStmts: seq<string> := [];
    if "text" !in columns {
      alterStmts := alterStmts + [TextColumnDdl];
    }
    if "crc" !in columns {
      alterStmts := alterStmts + [CrcColumnDdl];
    }
    began := alterStmts != [];
    executed := [];
    if began {
      var i := 0;
      while i < |alterStmts|
        invariant 0 <= i <= |alterStmts|
        invariant executed == alterStmts[..i]
      {
        executed := executed + [alterStmts[i]];
        i := i + 1;
      }
    }
  }
}
