/**
 * ApachePasswdFileCheck (failover/auth.py): checks the credentials of the
 * current HTTP request, sent in the `Basic` scheme of section 2 of RFC 7617,
 * against an Apache password file. Base64 decoding and the
 * `apr_password_validate` library call are parameters; the file is its lines.
 */
module Auth {
  import opened Outcomes
  import opened Text

  /** `current_handler()`: no handler, or one whose request may carry an Authorization header. */
  datatype RequestContext = NoHandler | Handler(authorization: Option<string>)

  datatype Credentials = Credentials(username: string, password: string)

  /** The scheme name and the space that follows it. */
  const BasicPrefix := "Basic "

  /** A header that starts with `Basic ` splits at its first space into that scheme and the rest. */
  lemma SplitBasicHeader(header: string)
    ensures |header| >= 6 && header[..6] == BasicPrefix ==> SplitOnce(header, ' ') == Some(("Basic", header[6..]))
  {
    if |header| >= 6 && header[..6] == BasicPrefix {
      var payload := header[6..];
      SplitOnceOfJoin("Basic", ' ', payload);
      calc {
        header;
        header[..6] + payload;
        BasicPrefix + payload;
        "Basic" + [' '] + payload;
      }
    }
  }

  /**
   * The credentials in an Authorization header value, None where the check
   * answers False. `decode` stands for `b64decode`; of its exceptions only
   * ValueError is caught, any other propagates.
   */
  function ParseAuthorization(header: string, decode: string -> Outcome<string>): (r: Outcome<Option<Credentials>>)
    // Anything but the exact, case-sensitive scheme name "Basic" followed by a space is refused.
    ensures !(|header| >= 6 && header[..6] == BasicPrefix) ==> r == Returned(None)
    // With that prefix, a ValueError from decoding refuses the header and any other exception propagates.
    ensures |header| >= 6 && header[..6] == BasicPrefix && decode(header[6..]).Raised? ==>
      r == if decode(header[6..]).error == ValueError then Returned(None) else Raised(decode(header[6..]).error)
    // With that prefix, a decoded payload yields credentials exactly when it contains ':'.
    ensures |header| >= 6 && header[..6] == BasicPrefix && decode(header[6..]).Returned? ==>
      r.Returned? && (r.value.Some? <==> ':' in decode(header[6..]).value)
    ensures r.Raised? ==>
      |header| >= 6 && decode(header[6..]) == Raised(r.error) && r.error != ValueError
    // Accepted credentials are the decoded payload split at its first ':'.
    ensures r.Returned? && r.value.Some? ==>
      && |header| >= 6 && header[..6] == BasicPrefix
      && decode(header[6..]) == Returned(r.value.value.username + ":" + r.value.value.password)
      && ':' !in r.value.value.username
  {
    SplitBasicHeader(header);
    match SplitOnce(header, ' ')
    case None => Returned(None)
    case Some(parts) =>
      var (scheme, payload) := parts;
      if scheme != "Basic" then Returned(None)
      else
        SplitOnceOfJoin(scheme, ' ', payload);
        assert header[6..] == payload;
        match decode(payload)
        case Raised(e) => if e == ValueError then Returned(None) else Raised(e)
        case Returned(decoded) =>
          match SplitOnce(decoded, ':')
          case None => Returned(None)
          case Some(userPass) => Returned(Some(Credentials(userPass.0, userPass.1)))
  }

  /** A header built from credentials whose user name has no ':' parses back to those credentials. */
  lemma {:induction false} ParseAuthorizationOfBasic(payload: string, decode: string -> Outcome<string>, c: Credentials)
    requires ':' !in c.username
    requires decode(payload) == Returned(c.username + ":" + c.password)
    ensures ParseAuthorization(BasicPrefix + payload, decode) == Returned(Some(c))
  {
    SplitOnceOfJoin("Basic", ' ', payload);
    assert "Basic" + [' '] + payload == BasicPrefix + payload;
    SplitOnceOfJoin(c.username, ':', c.password);
  }

  /**
   * The scheme name is matched case-sensitively, although section 2.1 of
   * RFC 7235 makes auth-scheme names case-insensitive.
   */
  lemma LowerCaseSchemeRefused(payload: string, decode: string -> Outcome<string>)
    ensures ParseAuthorization("basic " + payload, decode) == Returned(None)
  {
  }

  /** One line of the password file, stripped and split at its first ':' into user name and hash. */
  function ParseLine(line: string): (r: Option<(string, string)>)
    ensures r.None? <==> ':' !in Strip(line, Whitespace)
    ensures r.Some? ==> Strip(line, Whitespace) == r.value.0 + [':'] + r.value.1 && ':' !in r.value.0
  {
    SplitOnce(Strip(line, Whitespace), ':')
  }

  /** The parsed line names the client's user and `validate` accepts the password against its hash. */
  predicate EntryGrants(entry: Option<(string, string)>, c: Credentials, validate: (string, string) -> int)
  {
    entry.Some? && entry.value.0 == c.username && validate(c.password, entry.value.1) == 0
  }

  predicate LineGrants(line: string, c: Credentials, validate: (string, string) -> int)
  {
    EntryGrants(ParseLine(line), c, validate)
  }

  predicate Grants(lines: seq<string>, c: Credentials, validate: (string, string) -> int)
  {
    exists i :: 0 <= i < |lines| && LineGrants(lines[i], c, validate)
  }

  /**
   * The scan over the password file: malformed lines and other users' lines
   * are skipped, a failed match does not stop the scan, and the first match
   * answers True.
   */
  method ScanPasswordFile(lines: seq<string>, c: Credentials, validate: (string, string) -> int) returns (granted: bool)
    ensures granted <==> Grants(lines, c, validate)
  {
    var i := 0;
    while i < |lines|
      invariant 0 <= i <= |lines|
      invariant !Grants(lines[..i], c, validate)
    {
      var entry := ParseLine(lines[i]);
      GrantsExtend(lines, i, c, validate);
      // A line without ':' and a line for another user are skipped.
      if entry.Some? && entry.value.0 == c.username {
        if validate(c.password, entry.value.1) == 0 {
          assert LineGrants(lines[i], c, validate);
          return true;
        }
        // A failed match keeps reading, in case the user has several lines.
      }
      i := i + 1;
    }
    assert lines[..i] == lines;
    return false;
  }

  /** The file's first `i + 1` lines grant access iff the first `i` do or line `i` does. */
  lemma GrantsExtend(lines: seq<string>, i: int, c: Credentials, validate: (string, string) -> int)
    requires 0 <= i < |lines|
    ensures Grants(lines[..i + 1], c, validate) <==> Grants(lines[..i], c, validate) || LineGrants(lines[i], c, validate)
    ensures LineGrants(lines[i], c, validate) ==> Grants(lines, c, validate)
  {
    var prefix := lines[..i + 1];
    assert prefix[i] == lines[i];
    assert forall j :: 0 <= j < i ==> prefix[j] == lines[..i][j];
  }

  /** The credentials of the request, from its Authorization header if it has one. */
  function ClientCredentials(authorization: Option<string>, decode: string -> Outcome<string>): (r: Outcome<Option<Credentials>>)
    ensures authorization.None? ==> r == Returned(None)
    ensures authorization.Some? ==> r == ParseAuthorization(authorization.value, decode)
    // Credentials and exceptions come only from a `Basic` header.
    ensures r.Raised? || (r.Returned? && r.value.Some?) ==>
      authorization.Some? && |authorization.value| >= 6 && authorization.value[..6] == BasicPrefix
  {
    match authorization
    case None => Returned(None)
    case Some(header) => ParseAuthorization(header, decode)
  }

  /**
   * `ApachePasswdFileCheck.__call__`. `passwordFile` is the file's lines, or
   * the IOError raised by opening it; the file is opened only once the header
   * has yielded credentials.
   */
  method Check(context: RequestContext, decode: string -> Outcome<string>, passwordFile: Outcome<seq<string>>,
               validate: (string, string) -> int)
    returns (r: Outcome<bool>)
    ensures context.NoHandler? ==> r == Raised(RuntimeError)
    ensures context.Handler? && context.authorization.None? ==> r == Returned(false)
    ensures context.Handler? ==>
      match ClientCredentials(context.authorization, decode)
      case Raised(e) => r == Raised(e)
      case Returned(None) => r == Returned(false)
      case Returned(Some(c)) =>
        r == if passwordFile.Raised? then Raised(passwordFile.error) else Returned(Grants(passwordFile.value, c, validate))
  {
    if context.NoHandler? {
      return Raised(RuntimeError);
    }
    var credentials := ClientCredentials(context.authorization, decode);
    if credentials.Raised? {
      return Raised(credentials.error);
    }
    if credentials.value.None? {
      return Returned(false);
    }
    if passwordFile.Raised? {
      return Raised(passwordFile.error);
    }
    var granted := ScanPasswordFile(passwordFile.value, credentials.value.value, validate);
    return Returned(granted);
  }
}
