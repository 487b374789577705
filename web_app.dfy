/** The state the Flask handlers of pyapp-web/app.py change in place: the
    `user` and `upload` tables, the upload folder, the logged-in user and the
    session's `last_image`, held by one `App` object for one client session. */
module WebApp {
  import opened Common
  import opened Text
  import opened AppRules

  datatype User = User(id: int, email: string, passwordHash: string, isConfirmed: bool)

  datatype UploadRecord = UploadRecord(id: nat, filename: string, text: string, crc: string, userId: int)

  /** What a handler answers. */
  datatype Response =
    | RedirectToLogin                          // `login_required` on an anonymous request, or logout
    | RedirectToIndex(image: Option<string>)   // `redirect(url_for("index", image=...))`
    | RedirectToHistory
    | JsonUrl(url: string)
    | JsonError(status: nat, message: string)
    | Status(status: nat, message: string)     // a plain body with a status (403, 404, 400, 500)
    | LoginPage(loginError: string)
    | ResetPage(error: Option<string>, success: Option<string>)
    | IndexPage(preloadUrl: string)

  const BadCredentialsMessage := "Неверные учётные данные"
  const ConfirmFirstMessage := "Подтвердите email перед входом"
  const InvalidLinkMessage := "Ссылка недействительна или устарела"

  // ---------------------------------------------------------------------------
  // Queries on the tables
  // ---------------------------------------------------------------------------

  /** SQLite gives each new row of the table one more than the largest id in
      use, so ids increase along the table in insertion order. */
  predicate IdsIncreasing(t: seq<UploadRecord>) {
    forall i, j :: 0 <= i < j < |t| ==> t[i].id < t[j].id
  }

  /** The id SQLite gives the next row: the largest id in use plus one, 1 for
      an empty table. */
  function NextId(t: seq<UploadRecord>): (id: nat)
    ensures id >= 1
    ensures forall k :: 0 <= k < |t| ==> t[k].id < id
  {
    if t == [] then 1
    else
      var m := NextId(t[..|t| - 1]);
      if t[|t| - 1].id + 1 > m then t[|t| - 1].id + 1 else m
  }

  /** `Upload.query.get(id)`. */
  function FindUpload(t: seq<UploadRecord>, id: nat): (r: Option<UploadRecord>)
    ensures r.None? <==> forall k :: 0 <= k < |t| ==> t[k].id != id
    ensures r.Some? ==> r.value in t && r.value.id == id
  {
    if t == [] then None
    else if t[0].id == id then Some(t[0])
    else
      var r := FindUpload(t[1..], id);
      assert forall k :: 1 <= k < |t| ==> t[k] == t[1..][k - 1];
      r
  }

  /** The table without the rows whose id is `id` (`db.session.delete`). */
  function RemoveUpload(t: seq<UploadRecord>, id: nat): (r: seq<UploadRecord>)
    ensures forall x :: x in r <==> x in t && x.id != id
    ensures |r| <= |t|
  {
    if t == [] then []
    else
      var rest := RemoveUpload(t[1..], id);
      assert forall x :: x in t <==> x == t[0] || x in t[1..];
      if t[0].id == id then rest else [t[0]] + rest
  }

  /** Removing an id no row carries leaves the table as it was. */
  lemma {:induction false} RemoveAbsentUpload(t: seq<UploadRecord>, id: nat)
    requires forall k :: 0 <= k < |t| ==> t[k].id != id
    ensures RemoveUpload(t, id) == t
  {
    if t != [] {
      assert t[0].id != id;
      RemoveAbsentUpload(t[1..], id);
      assert t == [t[0]] + t[1..];
    }
  }

  lemma TailIncreasing(t: seq<UploadRecord>)
    requires IdsIncreasing(t) && t != []
    ensures IdsIncreasing(t[1..])
    ensures forall x :: x in t[1..] ==> t[0].id < x.id
  {
    forall i, j | 0 <= i < j < |t| - 1 ensures t[1..][i].id < t[1..][j].id {
      assert t[1..][i] == t[i + 1] && t[1..][j] == t[j + 1];
    }
  }

  lemma ConsIncreasing(a: UploadRecord, rest: seq<UploadRecord>)
    requires IdsIncreasing(rest)
    requires forall x :: x in rest ==> a.id < x.id
    ensures IdsIncreasing([a] + rest)
  {
    var r := [a] + rest;
    forall i, j | 0 <= i < j < |r| ensures r[i].id < r[j].id {
      assert r[j] == rest[j - 1];
      if i > 0 {
        assert r[i] == rest[i - 1];
      }
    }
  }

  /** Appending a row whose id is above every id in use keeps the table in
      id order. */
  lemma AppendIncreasing(t: seq<UploadRecord>, rec: UploadRecord)
    requires IdsIncreasing(t)
    requires forall k :: 0 <= k < |t| ==> t[k].id < rec.id
    ensures IdsIncreasing(t + [rec])
  {
    var r := t + [rec];
    forall i, j | 0 <= i < j < |r| ensures r[i].id < r[j].id {
      assert r[i] == t[i];
      if j < |t| {
        assert r[j] == t[j];
      }
    }
  }

  /** Removing rows keeps the table in id order. */
  lemma {:induction false} RemoveUploadIncreasing(t: seq<UploadRecord>, id: nat)
    requires IdsIncreasing(t)
    ensures IdsIncreasing(RemoveUpload(t, id))
  {
    if t != [] {
      TailIncreasing(t);
      RemoveUploadIncreasing(t[1..], id);
      if t[0].id != id {
        ConsIncreasing(t[0], RemoveUpload(t[1..], id));
      }
    }
  }

  /** With increasing ids a known id names exactly one row, so removing it
      takes exactly one row away. */
  lemma {:induction false} RemoveUploadCount(t: seq<UploadRecord>, id: nat)
    requires IdsIncreasing(t) && FindUpload(t, id).Some?
    ensures |RemoveUpload(t, id)| == |t| - 1
  {
    if t[0].id == id {
      assert forall k :: 0 <= k < |t| - 1 ==> t[1..][k].id != id by {
        forall k | 0 <= k < |t| - 1 ensures t[1..][k].id != id {
          assert t[1..][k] == t[k + 1];
        }
      }
      RemoveAbsentUpload(t[1..], id);
    } else {
      TailIncreasing(t);
      var rec := FindUpload(t, id).value;
      assert rec in t[1..];
      var k :| 0 <= k < |t[1..]| && t[1..][k] == rec;
      assert FindUpload(t[1..], id).Some?;
      RemoveUploadCount(t[1..], id);
    }
  }

  /** The newest upload of a user: `filter_by(user_id=uid).order_by(created_at.desc()).first()`.
      Rows are stored in creation order, so it is the user's last row. */
  function LatestUpload(t: seq<UploadRecord>, uid: int): (r: Option<UploadRecord>)
    ensures r.None? <==> forall k :: 0 <= k < |t| ==> t[k].userId != uid
    ensures r.Some? ==> r.value in t && r.value.userId == uid
    ensures r.Some? ==> exists k :: 0 <= k < |t| && t[k] == r.value && forall j :: k < j < |t| ==> t[j].userId != uid
  {
    if t == [] then None
    else if t[|t| - 1].userId == uid then Some(t[|t| - 1])
    else
      var r := LatestUpload(t[..|t| - 1], uid);
      assert forall k :: 0 <= k < |t| - 1 ==> t[k] == t[..|t| - 1][k];
      r
  }

  /** With ids in creation order, the user's last row carries the user's
      largest id, so ordering by time and ordering by id agree. */
  lemma LatestUploadHasLargestId(t: seq<UploadRecord>, uid: int)
    requires IdsIncreasing(t)
    ensures LatestUpload(t, uid).Some? ==>
      forall k :: 0 <= k < |t| && t[k].userId == uid ==> t[k].id <= LatestUpload(t, uid).value.id
  {
    if LatestUpload(t, uid).Some? {
      var last :| 0 <= last < |t| && t[last] == LatestUpload(t, uid).value
                  && forall j :: last < j < |t| ==> t[j].userId != uid;
      forall k | 0 <= k < |t| && t[k].userId == uid
        ensures t[k].id <= t[last].id
      {
        assert k <= last;
      }
    }
  }

  /** The session's `last_image` after a successful login. */
  function LastImageAtLogin(t: seq<UploadRecord>, uid: int): Option<string> {
    match LatestUpload(t, uid)
    case None => None
    case Some(rec) => Some(UploadUrl(rec.filename))
  }

  /** `user.id` is the primary key and `user.email` is unique. */
  predicate UsersUnique(users: seq<User>) {
    forall i, j :: 0 <= i < j < |users| ==> users[i].id != users[j].id && users[i].email != users[j].email
  }

  /** With unique ids, looking a user up by id finds that very user. */
  lemma UserByOwnId(users: seq<User>, i: nat)
    requires UsersUnique(users) && i < |users|
    ensures UserById(users, users[i].id) == Some(users[i])
  {
    var found := UserById(users, users[i].id).value;
    var k :| 0 <= k < |users| && users[k] == found;
    assert k == i;
  }

  /** `User.query.get(id)`. */
  function UserById(users: seq<User>, id: int): (r: Option<User>)
    ensures r.None? <==> forall k :: 0 <= k < |users| ==> users[k].id != id
    ensures r.Some? ==> r.value in users && r.value.id == id
  {
    if users == [] then None
    else if users[0].id == id then Some(users[0])
    else
      var r := UserById(users[1..], id);
      assert forall k :: 1 <= k < |users| ==> users[k] == users[1..][k - 1];
      r
  }

  /** The position of `User.query.filter_by(email=email).first()`. */
  function UserIndexByEmail(users: seq<User>, email: string): (r: Option<nat>)
    ensures r.None? <==> forall k :: 0 <= k < |users| ==> users[k].email != email
    ensures r.Some? ==> r.value < |users| && users[r.value].email == email
    ensures r.Some? ==> forall k :: 0 <= k < r.value ==> users[k].email != email
  {
    if users == [] then None
    else if users[0].email == email then Some(0)
    else
      match UserIndexByEmail(users[1..], email)
      case None =>
        assert forall k :: 1 <= k < |users| ==> users[k] == users[1..][k - 1];
        None
      case Some(i) =>
        assert forall k :: 1 <= k < |users| ==> users[k] == users[1..][k - 1];
        Some(i + 1)
  }

  // ---------------------------------------------------------------------------
  // The application object
  // ---------------------------------------------------------------------------

  class App {
    var users: seq<User>
    var uploads: seq<UploadRecord>
    var folder: set<string>              // the names of the files in UPLOAD_FOLDER
    var currentUserId: Option<int>       // the user Flask-Login remembers for this client
    var lastImage: Option<string>        // session["last_image"]

    /** The schema's guarantees: user ids and e-mails are unique, and upload
        ids grow in insertion order. */
    ghost predicate Valid()
      reads this
    {
      UsersUnique(users) && IdsIncreasing(uploads)
    }

    constructor(users: seq<User>, uploads: seq<UploadRecord>, folder: set<string>)
      requires UsersUnique(users) && IdsIncreasing(uploads)
      ensures Valid()
      ensures this.users == users && this.uploads == uploads && this.folder == folder
      ensures currentUserId == None && lastImage == None
    {
      this.users := users;
      this.uploads := uploads;
      this.folder := folder;
      currentUserId := None;
      lastImage := None;
    }

    /** `current_user` when it is authenticated. */
    function AuthUser(): (u: Option<User>)
      reads this
      ensures currentUserId.None? ==> u.None?
      ensures currentUserId.Some? ==> (u.None? <==> forall k :: 0 <= k < |users| ==> users[k].id != currentUserId.value)
      ensures u.Some? ==> u.value in users && Some(u.value.id) == currentUserId
    {
      match currentUserId
      case None => None
      case Some(uid) => UserById(users, uid)
    }

    /** GET /: the preview URL is the `image` query parameter when it is
        non-empty, else the session's `last_image`, else "". */
    function Index(imageArg: Option<string>): (r: Response)
      reads this
      ensures AuthUser().None? <==> r == RedirectToLogin
      ensures AuthUser().Some? ==> r.IndexPage?
      ensures r.IndexPage? && Given(imageArg) ==> r.preloadUrl == imageArg.value
      ensures r.IndexPage? && !Given(imageArg) ==> r.preloadUrl == (if lastImage.Some? then lastImage.value else "")
    {
      if AuthUser().None? then RedirectToLogin
      else if Given(imageArg) then IndexPage(imageArg.value)
      else IndexPage(if lastImage.Some? then lastImage.value else "")
    }

    /** POST /upload. The checks run in order and a failing one answers
        without saving or recording anything. An accepted file is stored
        under a fresh name, recorded with its CRC tag and the current user,
        and becomes the session's `last_image`. */
    method Upload(files: map<string, FilePart>, crc32: seq<bv8> -> int,
                  secureFilename: string -> string, token: string)
      returns (resp: Response)
      requires Valid()
      modifies this`uploads, this`folder, this`lastImage
      ensures Valid()
      ensures old(AuthUser()).None? ==> resp == RedirectToLogin && unchanged(this)
      ensures old(AuthUser()).Some? ==>
        var user := old(AuthUser()).value;
        var verdict := UploadCheck(user.isConfirmed, files);
        if !verdict.Accepted? then
          resp == JsonError(Rejection(verdict).0, Rejection(verdict).1) && unchanged(this)
        else
          match StoredName(token, secureFilename(verdict.part.filename))
          case None => resp == Status(500, "Internal Server Error") && unchanged(this)
          case Some(name) =>
            && uploads == old(uploads) + [UploadRecord(NextId(old(uploads)), name, "", CrcTag(crc32(verdict.part.content)), user.id)]
            && folder == old(folder) + {name}
            && lastImage == Some(UploadUrl(name))
            && resp == JsonUrl(UploadUrl(name))
    {
      var user := AuthUser();
      if user.None? {
        return RedirectToLogin;
      }
      var verdict := UploadCheck(user.value.isConfirmed, files);
      if !verdict.Accepted? {
        var (status, message) := Rejection(verdict);
        return JsonError(status, message);
      }
      var crc := CrcTag(crc32(verdict.part.content));
      var stored := StoredName(token, secureFilename(verdict.part.filename));
      if stored.None? {
        return Status(500, "Internal Server Error");
      }
      var name := stored.value;
      var rec := UploadRecord(NextId(uploads), name, "", crc, user.value.id);
      AppendIncreasing(uploads, rec);
      folder := folder + {name};
      uploads := uploads + [rec];
      var url := UploadUrl(name);
      lastImage := Some(url);
      resp := JsonUrl(url);
    }

    /** POST /login. Only a confirmed user with a correct password is logged
        in; the session's `last_image` then points at that user's newest
        upload, or is removed when there is none. */
    method Login(email: string, password: string, checkPassword: (string, string) -> bool)
      returns (resp: Response)
      requires Valid()
      modifies this
      ensures Valid()
      ensures users == old(users) && uploads == old(uploads) && folder == old(folder)
      ensures old(AuthUser()).Some? ==> resp == RedirectToIndex(None) && unchanged(this)
      ensures old(AuthUser()).None? ==>
        match UserIndexByEmail(users, Lower(email))
        case None => resp == LoginPage(BadCredentialsMessage) && unchanged(this)
        case Some(i) =>
          if !checkPassword(users[i].passwordHash, password) then
            resp == LoginPage(BadCredentialsMessage) && unchanged(this)
          else if !users[i].isConfirmed then
            resp == LoginPage(ConfirmFirstMessage) && unchanged(this)
          else
            && currentUserId == Some(users[i].id)
            && AuthUser() == Some(users[i])
            && lastImage == LastImageAtLogin(uploads, users[i].id)
            && resp == RedirectToIndex(None)
    {
      if AuthUser().Some? {
        return RedirectToIndex(None);
      }
      var found := UserIndexByEmail(users, Lower(email));
      if found.None? || !checkPassword(users[found.value].passwordHash, password) {
        return LoginPage(BadCredentialsMessage);
      }
      var user := users[found.value];
      if !user.isConfirmed {
        return LoginPage(ConfirmFirstMessage);
      }
      UserByOwnId(users, found.value);
      currentUserId := Some(user.id);
      lastImage := LastImageAtLogin(uploads, user.id);
      resp := RedirectToIndex(None);
    }

    /** GET /logout: forgets the user and the session's `last_image`. */
    method Logout() returns (resp: Response)
      requires Valid()
      modifies this
      ensures Valid()
      ensures resp == RedirectToLogin
      ensures users == old(users) && uploads == old(uploads) && folder == old(folder)
      ensures old(AuthUser()).None? ==> unchanged(this)
      ensures old(AuthUser()).Some? ==> currentUserId == None && lastImage == None
    {
      if AuthUser().Some? {
        currentUserId := None;
        lastImage := None;
      }
      resp := RedirectToLogin;
    }

    /** GET /use/<id>: an unknown id is 404, another user's upload is 403 and
        changes nothing; the owner's choice becomes the session's `last_image`. */
    method UseUpload(id: nat) returns (resp: Response)
      requires Valid()
      modifies this
      ensures Valid()
      ensures users == old(users) && uploads == old(uploads) && folder == old(folder)
      ensures currentUserId == old(currentUserId)
      ensures old(AuthUser()).None? ==> resp == RedirectToLogin && unchanged(this)
      ensures old(AuthUser()).Some? ==>
        match FindUpload(uploads, id)
        case None => resp == Status(404, "Not Found") && unchanged(this)
        case Some(rec) =>
          if rec.userId != old(AuthUser()).value.id then
            resp == Status(403, "Forbidden") && unchanged(this)
          else
            lastImage == Some(UploadUrl(rec.filename)) && resp == RedirectToIndex(Some(UploadUrl(rec.filename)))
    {
      var user := AuthUser();
      if user.None? {
        return RedirectToLogin;
      }
      var rec := FindUpload(uploads, id);
      if rec.None? {
        return Status(404, "Not Found");
      }
      if rec.value.userId != user.value.id {
        return Status(403, "Forbidden");
      }
      var url := UploadUrl(rec.value.filename);
      lastImage := Some(url);
      resp := RedirectToIndex(Some(url));
    }

    /** GET /delete/<id>: an unknown id is 404, another user's upload is 403
        and changes nothing. The owner's delete removes the file (a missing
        file is ignored) and exactly that row, and clears `last_image` only
        when it showed the deleted file. */
    method DeleteUpload(id: nat) returns (resp: Response)
      requires Valid()
      modifies this
      ensures Valid()
      ensures users == old(users) && currentUserId == old(currentUserId)
      ensures old(AuthUser()).None? ==> resp == RedirectToLogin && unchanged(this)
      ensures old(AuthUser()).Some? ==>
        match FindUpload(old(uploads), id)
        case None => resp == Status(404, "Not Found") && unchanged(this)
        case Some(rec) =>
          if rec.userId != old(AuthUser()).value.id then
            resp == Status(403, "Forbidden") && unchanged(this)
          else
            && uploads == RemoveUpload(old(uploads), id)
            && |uploads| == |old(uploads)| - 1
            && (forall x :: x in uploads <==> x in old(uploads) && x != rec)
            && folder == old(folder) - {rec.filename}
            && lastImage == (if old(lastImage) == Some(UploadUrl(rec.filename)) then None else old(lastImage))
            && resp == RedirectToHistory
    {
      var user := AuthUser();
      if user.None? {
        return RedirectToLogin;
      }
      var rec := FindUpload(uploads, id);
      if rec.None? {
        return Status(404, "Not Found");
      }
      if rec.value.userId != user.value.id {
        return Status(403, "Forbidden");
      }
      IdsDetermineRow(uploads, rec.value);
      RemoveUploadIncreasing(uploads, id);
      RemoveUploadCount(uploads, id);
      folder := folder - {rec.value.filename};
      uploads := RemoveUpload(uploads, id);
      var url := UploadUrl(rec.value.filename);
      if lastImage == Some(url) {
        lastImage := None;
      }
      resp := RedirectToHistory;
    }

    /** GET/POST /reset/<token>. A bad or expired token is 400 and an
        unknown email 404. On POST the password changes only when both
        fields are filled and equal; otherwise the form shows why. */
    method ResetPassword(tokenEmail: Option<string>, isPost: bool, password: string, confirm: string,
                         hashPassword: string -> string)
      returns (resp: Response)
      requires Valid()
      modifies this
      ensures Valid()
      ensures uploads == old(uploads) && folder == old(folder)
      ensures currentUserId == old(currentUserId) && lastImage == old(lastImage)
      ensures tokenEmail.None? ==> resp == Status(400, InvalidLinkMessage) && unchanged(this)
      ensures tokenEmail.Some? ==>
        match UserIndexByEmail(old(users), tokenEmail.value)
        case None => resp == Status(404, "Not Found") && unchanged(this)
        case Some(i) =>
          if !isPost then resp == ResetPage(None, None) && unchanged(this)
          else match ResetCheck(password, confirm)
            case FillBoth => resp == ResetPage(Some(FillBothMessage), None) && unchanged(this)
            case Mismatch => resp == ResetPage(Some(MismatchMessage), None) && unchanged(this)
            case Accept =>
              && users == old(users)[i := old(users)[i].(passwordHash := hashPassword(password))]
              && resp == ResetPage(None, Some(PasswordUpdatedMessage))
    {
      if tokenEmail.None? {
        return Status(400, InvalidLinkMessage);
      }
      var found := UserIndexByEmail(users, tokenEmail.value);
      if found.None? {
        return Status(404, "Not Found");
      }
      if !isPost {
        return ResetPage(None, None);
      }
      var verdict := ResetCheck(password, confirm);
      if verdict == FillBoth {
        resp := ResetPage(Some(FillBothMessage), None);
      } else if verdict == Mismatch {
        resp := ResetPage(Some(MismatchMessage), None);
      } else {
        var i := found.value;
        users := users[i := users[i].(passwordHash := hashPassword(password))];
        resp := ResetPage(None, Some(PasswordUpdatedMessage));
      }
    }
  }

  /** With increasing ids a row is the only one carrying its id. */
  lemma IdsDetermineRow(t: seq<UploadRecord>, rec: UploadRecord)
    requires IdsIncreasing(t) && rec in t
    ensures forall x :: x in t && x.id == rec.id ==> x == rec
  {
  }
}
