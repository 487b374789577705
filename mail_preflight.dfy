/** The checks pyapp-web/test_email.py makes before it opens any SMTP
    connection: the `mail` section must hold the five required settings, the
    username must not be the example one, and the settings choose between an
    SSL connection and a plain one with or without STARTTLS. Reading the YAML
    file and the SMTP session itself are parameters. */
module MailPreflight {
  import opened Common

  const RequiredFields: seq<string> := ["server", "port", "username", "password", "default_sender"]
  const PlaceholderUsername := "your-email@gmail.com"

  /** The place of a required field in the order the fields are checked. */
  function Rank(field: string): nat {
    if field == "server" then 0
    else if field == "port" then 1
    else if field == "username" then 2
    else if field == "password" then 3
    else 4
  }

  /** `not mail.get(field)`: a field is missing when it is absent or present
      with a false value (an empty string, 0, None, ...). */
  predicate Missing(mail: Record, field: string) {
    !Truthy(Get(mail, field, Null))
  }

  /** The missing-fields loop: exactly the required fields that are missing,
      in the order server, port, username, password, default_sender. */
  method MissingFields(mail: Record) returns (missing: seq<string>)
    ensures forall f :: f in missing <==> f in RequiredFields && Missing(mail, f)
    ensures forall a, b :: 0 <= a < b < |missing| ==> Rank(missing[a]) < Rank(missing[b])
  {
    missing := [];
    for i := 0 to |RequiredFields|
      invariant forall f :: f in missing <==> f in RequiredFields[..i] && Missing(mail, f)
      invariant forall a, b :: 0 <= a < b < |missing| ==> Rank(missing[a]) < Rank(missing[b])
      invariant forall a :: 0 <= a < |missing| ==> Rank(missing[a]) < i
    {
      var field := RequiredFields[i];
      assert Rank(field) == i;
      assert RequiredFields[..i + 1] == RequiredFields[..i] + [field];
      if Missing(mail, field) {
        missing := missing + [field];
      }
    }
    assert RequiredFields[..|RequiredFields|] == RequiredFields;
  }

  /** How the test connects. */
  datatype ConnectionMode = Ssl | Plain(startTls: bool)

  /** SSL only when `use_ssl` is true (default false); otherwise a plain
      connection that issues STARTTLS unless `use_tls` is present and false. */
  function ChooseMode(mail: Record): (m: ConnectionMode)
    ensures m == Ssl <==> Truthy(Get(mail, "use_ssl", Bool(false)))
    ensures m == Plain(false) <==> !Truthy(Get(mail, "use_ssl", Bool(false))) && "use_tls" in mail && !Truthy(mail["use_tls"])
    ensures m == Plain(true) <==> !Truthy(Get(mail, "use_ssl", Bool(false))) && ("use_tls" !in mail || Truthy(mail["use_tls"]))
  {
    if Truthy(Get(mail, "use_ssl", Bool(false))) then Ssl
    else Plain(Truthy(Get(mail, "use_tls", Bool(true))))
  }

  /** `config.get('mail', {})`; `None` where the value has no `.get` and the
      script stops with an AttributeError. */
  function MailSection(config: Record): (mail: Option<Record>)
    ensures mail.None? <==> "mail" in config && !config["mail"].Dict?
    ensures "mail" !in config ==> mail == Some(map[])
    ensures mail.Some? && "mail" in config ==> config["mail"] == Dict(mail.value)
  {
    if "mail" !in config then Some(map[])
    else if config["mail"].Dict? then Some(config["mail"].entries)
    else None
  }

  /** Where the checks before any connection end. */
  datatype Preflight =
    | Crashed                              // an uncaught AttributeError
    | MissingSettings(fields: seq<string>)
    | PlaceholderUser
    | Connect(mode: ConnectionMode)

  /** The checks of `test_email_config` between loading the configuration
      and opening a connection. A connection is chosen only when every
      required field is present and the username is not the example one. */
  method CheckConfig(config: Record) returns (p: Preflight)
    ensures p == Crashed <==> MailSection(config).None?
    ensures p.MissingSettings? ==>
      && p.fields != []
      && (forall f :: f in p.fields <==> f in RequiredFields && Missing(MailSection(config).value, f))
      && (forall a, b :: 0 <= a < b < |p.fields| ==> Rank(p.fields[a]) < Rank(p.fields[b]))
    ensures MailSection(config).Some? ==>
      var mail := MailSection(config).value;
      && (p.MissingSettings? <==> exists f :: f in RequiredFields && Missing(mail, f))
      && (p == PlaceholderUser <==>
            (forall f :: f in RequiredFields ==> !Missing(mail, f)) && Get(mail, "username", Null) == Str(PlaceholderUsername))
      && (p.Connect? ==> p.mode == ChooseMode(mail) && Get(mail, "username", Null) != Str(PlaceholderUsername))
  {
    var section := MailSection(config);
    if section.None? {
      return Crashed;
    }
    var mail := section.value;
    var missing := MissingFields(mail);
    if missing != [] {
      assert missing[0] in missing;
      return MissingSettings(missing);
    }
    assert !Missing(mail, "username") by {
      assert "username" in RequiredFields;
    }
    if mail["username"] == Str(PlaceholderUsername) {
      return PlaceholderUser;
    }
    p := Connect(ChooseMode(mail));
  }

  /** `test_email_config`: `loaded` is the parsed YAML document, `None` when
      the file is missing or not valid YAML; `send` is the SMTP session in the
      chosen mode. Returns the script's answer (`None` when it stops with an
      exception) and the mode a connection was attempted in, if any. */
  method TestEmailConfig(loaded: Option<Value>, send: ConnectionMode -> bool)
    returns (answer: Option<bool>, attempted: Option<ConnectionMode>)
    ensures loaded.None? ==> answer == Some(false) && attempted.None?
    ensures loaded.Some? && !loaded.value.Dict? ==> answer.None? && attempted.None?
    ensures loaded.Some? && loaded.value.Dict? ==>
      match MailSection(loaded.value.entries)
      case None => answer.None? && attempted.None?
      case Some(mail) =>
        if (exists f :: f in RequiredFields && Missing(mail, f)) || Get(mail, "username", Null) == Str(PlaceholderUsername)
        then answer == Some(false) && attempted.None?
        else attempted == Some(ChooseMode(mail)) && answer == Some(send(ChooseMode(mail)))
    ensures answer == Some(true) ==> attempted.Some?
  {
    if loaded.None? {
      return Some(false), None;
    }
    if !loaded.value.Dict? {
      return None, None;
    }
    var p := CheckConfig(loaded.value.entries);
    match p {
      case Crashed => answer, attempted := None, None;
      case MissingSettings(_) => answer, attempted := Some(false), None;
      case PlaceholderUser => answer, attempted := Some(false), None;
      case Connect(mode) =>
        answer, attempted := Some(send(mode)), Some(mode);
    }
  }
}
