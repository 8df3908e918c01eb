/**
 * The session and command dispatcher of the server (`handle_commands`): a
 * command line is split by `sscanf("%9s %49s %49s")`, and signup / login /
 * logout / UPLOAD / DOWNLOAD act on the per-connection session and on the
 * global ten-entry account table. Every reply is what `write` sends: the
 * first N characters of a literal, or of an `snprintf` buffer.
 */
module Commands {
  import opened Wrappers
  import opened CStrings

  const MaxAccounts := 10
  /** The widths of the three `sscanf` conversions and of UPLOAD's file name. */
  const CommandWidth := 9
  const NameWidth := 49
  const FilenameWidth := 255

  /** An entry of the global `users[]` table. */
  datatype Account = Account(username: string, password: string)

  /** The value of a `ClientSession`. */
  datatype Session = Session(authenticated: bool, username: string)

  // ---------------------------------------------------------------------------
  // `sscanf` with `%Ns` conversions
  // ---------------------------------------------------------------------------

  /** `isspace` in the C locale: space, tab, newline, vertical tab, form feed, carriage return. */
  predicate IsSpace(c: char) {
    c == ' ' || '\t' <= c <= '\r'
  }

  predicate AllSpace(s: string) {
    forall k | 0 <= k < |s| :: IsSpace(s[k])
  }

  /** The input line holds at least one character that is not white space. */
  predicate HasWord(line: string) {
    exists k | 0 <= k < |line| :: !IsSpace(line[k])
  }

  /** A word a `%Ns` conversion can store: 1 to N characters, none of them white space. */
  predicate Word(w: string, width: nat) {
    1 <= |w| <= width && forall k | 0 <= k < |w| :: !IsSpace(w[k])
  }

  /** u is what is left of s after some leading white space. */
  predicate SpacesThen(s: string, u: string) {
    |u| <= |s| && s[|s| - |u|..] == u && AllSpace(s[..|s| - |u|])
  }

  /** How much leading white space `%s` skips. */
  function SpaceCount(s: string): (n: nat)
    ensures n <= |s|
    ensures forall k | 0 <= k < n :: IsSpace(s[k])
    ensures n < |s| ==> !IsSpace(s[n])
  {
    if s != [] && IsSpace(s[0]) then 1 + SpaceCount(s[1..]) else 0
  }

  /** How many characters `%Ns` reads from input that starts with a non-space: up to N, up to a space. */
  function WordLength(s: string, width: nat): (n: nat)
    ensures n <= width && n <= |s|
    ensures forall k | 0 <= k < n :: !IsSpace(s[k])
    ensures n < width && n < |s| ==> IsSpace(s[n])
  {
    if width == 0 || s == [] || IsSpace(s[0]) then 0 else 1 + WordLength(s[1..], width - 1)
  }

  /** A stored word and the input left for the next directive. */
  datatype Token = Token(word: string, rest: string)

  /**
   * One `%Ns` conversion: None is an input failure (only white space left);
   * otherwise the word is the longest run of non-space characters after the
   * white space, cut at N, and a longer run continues in the rest.
   */
  function ScanString(s: string, width: nat): (r: Option<Token>)
    requires width >= 1
    ensures r.None? <==> AllSpace(s)
    ensures r.Some? ==> var t := r.value;
      && Word(t.word, width)
      && SpacesThen(s, t.word + t.rest)
      && (|t.word| < width ==> t.rest == [] || IsSpace(t.rest[0]))
  {
    var n := SpaceCount(s);
    if n == |s| then
      assert s[..|s|] == s;
      None
    else
      var t := s[n..];
      var m := WordLength(t, width);
      var tok := Token(t[..m], t[m..]);
      assert tok.word + tok.rest == t;
      assert s[..n] == s[..|s| - |t|];
      Some(tok)
  }

  /**
   * What `sscanf(buffer, "%9s %49s %49s", command, username, password)`
   * returns and stores. A field that is not converted is left "" (C leaves
   * it unset; no branch reads it then).
   */
  datatype Scanned = Scanned(args: nat, command: string, username: string, password: string)

  /** One to three conversions, each a word within its width. */
  predicate ScannedOk(sc: Scanned) {
    && 1 <= sc.args <= 3 && Word(sc.command, CommandWidth)
    && (sc.args >= 2 ==> Word(sc.username, NameWidth))
    && (sc.args == 3 ==> Word(sc.password, NameWidth))
  }

  function ScanLine(line: string): (sc: Scanned)
    requires HasWord(line)
    ensures ScannedOk(sc)
  {
    var c := ScanString(line, CommandWidth).value;
    match ScanString(c.rest, NameWidth)
    case None => Scanned(1, c.word, "", "")
    case Some(u) =>
      match ScanString(u.rest, NameWidth)
      case None => Scanned(2, c.word, u.word, "")
      case Some(p) => Scanned(3, c.word, u.word, p.word)
  }

  /** `sscanf(buffer, "%*s %255s", filename) == 1`: the second word, cut at 255 characters. */
  function FileArg(line: string): (f: Option<string>)
    requires HasWord(line)
    ensures f.Some? ==> Word(f.value, FilenameWidth)
  {
    var skipped := ScanString(line, |line|).value;
    match ScanString(skipped.rest, FilenameWidth)
    case None => None
    case Some(t) => Some(t.word)
  }

  // ---------------------------------------------------------------------------
  // Replies
  // ---------------------------------------------------------------------------

  const SignupUsage := "*** Invalid format. Usage: signup <username> <password>\n"
  const UserExists := "*** Error: User already exists\n"
  const SignupDone := "Signup successful. You are now logged in.\n"
  const UserLimit := "*** Error: User limit reached\n"
  const LoginUsage := "*** Invalid format. Usage: login <username> <password>\n"
  const LoginDone := "Login successful\n"
  const BadCredentials := "*** Error: Invalid credentials\n"
  const NotLoggedIn := "*** Error: Not logged in\n"
  const LogoutDone := "Logged out successfully\n"
  const PleaseLogin := "*** Error: Please login first\n"
  const UploadUsage := "*** Invalid format. Usage: UPLOAD <filename>\n"
  const DownloadUsage := "*** Invalid format. Usage: DOWNLOAD <filename>\n"
  const UnknownCommand := "*** Unknown command\n"

  /** `snprintf(msg, 128, "*** Error: Already logged in as '%s'\n", name)`. */
  function AlreadyLoggedIn(name: string): string {
    Take("*** Error: Already logged in as '" + name + "'\n", 127)
  }

  const UploadReceived := "Upload command received for file: "
  const DownloadReceived := "Download command received for file: "

  /** `snprintf(msg, 300, "... command received for file: %s\n", f)`, with the prefix of UPLOAD or DOWNLOAD. */
  function Received(prefix: string, f: string): string {
    Take(prefix + f + "\n", 299)
  }

  // ---------------------------------------------------------------------------
  // One command
  // ---------------------------------------------------------------------------

  /** Some table entry carries that name (the loop at src/commands.c:33-38). */
  predicate NameTaken(accounts: seq<Account>, name: string) {
    exists i | 0 <= i < |accounts| :: accounts[i].username == name
  }

  /** Some table entry carries that name and that password (the loop at src/commands.c:74-83). */
  predicate CredentialsMatch(accounts: seq<Account>, name: string, password: string) {
    exists i | 0 <= i < |accounts| :: accounts[i].username == name && accounts[i].password == password
  }

  /** The five command words `handle_commands` compares against are pairwise different. */
  lemma CommandWordsDiffer()
    ensures "signup" != "login" && "signup" != "logout" && "signup" != "UPLOAD" && "signup" != "DOWNLOAD"
    ensures "login" != "logout" && "login" != "UPLOAD" && "login" != "DOWNLOAD"
    ensures "logout" != "UPLOAD" && "logout" != "DOWNLOAD" && "UPLOAD" != "DOWNLOAD"
  {
    assert "signup"[0] == 's' && "login"[0] == 'l' && "UPLOAD"[0] == 'U' && "DOWNLOAD"[0] == 'D';
    assert "login"[3] == 'i' && "logout"[3] == 'o';
  }

  /** The account table, the session and the reply after one command line. */
  datatype Outcome = Outcome(accounts: seq<Account>, session: Session, reply: string)

  /** The command line as `handle_commands` sees it: its three conversions, and the file argument. */
  function Step(accounts: seq<Account>, session: Session, line: string): Outcome
    requires HasWord(line)
  {
    Dispatch(accounts, session, ScanLine(line), FileArg(line))
  }

  /**
   * The branches of `handle_commands` on what `sscanf` stored; file is what
   * the second `sscanf` of UPLOAD and DOWNLOAD finds.
   */
  function Dispatch(accounts: seq<Account>, session: Session, sc: Scanned, file: Option<string>): Outcome
  {
    if sc.command == "signup" then SignupOutcome(accounts, session, sc)
    else if sc.command == "login" then LoginOutcome(accounts, session, sc)
    else if sc.command == "logout" then LogoutOutcome(accounts, session)
    else if sc.command == "UPLOAD" then
      Outcome(accounts, session, FileReply(session, file, UploadReceived, Take(UploadUsage, 45)))
    else if sc.command == "DOWNLOAD" then
      Outcome(accounts, session, FileReply(session, file, DownloadReceived, Take(DownloadUsage, 47)))
    else Outcome(accounts, session, Take(UnknownCommand, 20))
  }

  /** The signup branch (src/commands.c:26-57). */
  function SignupOutcome(accounts: seq<Account>, session: Session, sc: Scanned): Outcome {
    if sc.args != 3 then Outcome(accounts, session, Take(SignupUsage, 56))
    else if NameTaken(accounts, sc.username) then Outcome(accounts, session, Take(UserExists, 27))
    else if |accounts| < MaxAccounts then
      Outcome(accounts + [Account(Take(sc.username, 49), Take(sc.password, 49))],
              Session(true, Take(sc.username, 49)), Take(SignupDone, 42))
    else Outcome(accounts, session, Take(UserLimit, 26))
  }

  /** The login branch (src/commands.c:59-85). */
  function LoginOutcome(accounts: seq<Account>, session: Session, sc: Scanned): Outcome {
    if sc.args != 3 then Outcome(accounts, session, Take(LoginUsage, 55))
    else if session.authenticated then Outcome(accounts, session, AlreadyLoggedIn(session.username))
    else if CredentialsMatch(accounts, sc.username, sc.password) then
      Outcome(accounts, Session(true, Take(sc.username, 49)), Take(LoginDone, 17))
    else Outcome(accounts, session, Take(BadCredentials, 27))
  }

  /** The logout branch (src/commands.c:87-97). */
  function LogoutOutcome(accounts: seq<Account>, session: Session): Outcome {
    if !session.authenticated then Outcome(accounts, session, Take(NotLoggedIn, 21))
    else Outcome(accounts, Session(false, ""), Take(LogoutDone, 24))
  }

  /** The reply of UPLOAD or DOWNLOAD (src/commands.c:101-131), given its prefix and usage line. */
  function FileReply(session: Session, file: Option<string>, prefix: string, usage: string): string {
    if !session.authenticated then Take(PleaseLogin, 26)
    else match file
      case Some(f) => Received(prefix, f)
      case None => usage
  }

  // ---------------------------------------------------------------------------
  // Scanning typed words back
  // ---------------------------------------------------------------------------

  lemma {:induction false} SpaceCountOf(sp: string, t: string)
    requires AllSpace(sp) && (t == [] || !IsSpace(t[0]))
    ensures SpaceCount(sp + t) == |sp|
    decreases |sp|
  {
    if sp == [] {
      assert sp + t == t;
    } else {
      assert (sp + t)[1..] == sp[1..] + t;
      SpaceCountOf(sp[1..], t);
    }
  }

  lemma {:induction false} WordLengthOf(w: string, rest: string, width: nat)
    requires |w| <= width && forall k | 0 <= k < |w| :: !IsSpace(w[k])
    requires |w| < width ==> rest == [] || IsSpace(rest[0])
    ensures WordLength(w + rest, width) == |w|
    decreases |w|
  {
    if w == [] {
      assert w + rest == rest;
    } else {
      assert (w + rest)[1..] == w[1..] + rest;
      WordLengthOf(w[1..], rest, width - 1);
    }
  }

  /**
   * The converse of what `ScanString` promises: white space, then a word,
   * then a rest that a shorter-than-width word must not run into, scans to
   * exactly that word and that rest.
   */
  lemma ScanStringOf(sp: string, w: string, rest: string, width: nat)
    requires width >= 1 && AllSpace(sp) && Word(w, width)
    requires |w| < width ==> rest == [] || IsSpace(rest[0])
    ensures ScanString(sp + w + rest, width) == Some(Token(w, rest))
  {
    var t := w + rest;
    assert sp + w + rest == sp + t;
    SpaceCountOf(sp, t);
    assert (sp + t)[|sp|..] == t;
    WordLengthOf(w, rest, width);
    assert t[..|w|] == w && t[|w|..] == rest;
  }

  /** Three successful conversions, chained through what each leaves, give a three-field scan. */
  lemma ScanLineOfThree(line: string, c: Token, u: Token, p: Token)
    requires ScanString(line, CommandWidth) == Some(c)
    requires ScanString(c.rest, NameWidth) == Some(u)
    requires ScanString(u.rest, NameWidth) == Some(p)
    ensures HasWord(line) && ScanLine(line) == Scanned(3, c.word, u.word, p.word)
  {
  }

  /** A line of three short words separated by single spaces scans to those words. */
  lemma ScanThreeWords(c: string, u: string, p: string)
    requires Word(c, CommandWidth) && Word(u, NameWidth) && Word(p, NameWidth)
    ensures HasWord(c + " " + u + " " + p + "\n")
    ensures ScanLine(c + " " + u + " " + p + "\n") == Scanned(3, c, u, p)
  {
    ScanSeparatedWords(c, " ", u, " ", p, "\n");
  }

  /**
   * More generally, three words separated by white space and followed by
   * white space scan to those three words, whatever the white space; a
   * command word of the full nine characters needs no space after it.
   */
  lemma ScanSeparatedWords(c: string, s1: string, u: string, s2: string, p: string, s3: string)
    requires Word(c, CommandWidth) && Word(u, NameWidth) && Word(p, NameWidth)
    requires (s1 != [] || |c| == CommandWidth) && AllSpace(s1) && s2 != [] && AllSpace(s2) && AllSpace(s3)
    ensures HasWord(c + s1 + u + s2 + p + s3)
    ensures ScanLine(c + s1 + u + s2 + p + s3) == Scanned(3, c, u, p)
  {
    var line := c + s1 + u + s2 + p + s3;
    assert line[0] == c[0];
    var rest2 := s2 + p + s3;
    var rest1 := s1 + u + rest2;
    assert line == [] + c + rest1;
    ScanStringOf([], c, rest1, CommandWidth);
    assert rest1 == s1 + u + rest2;
    ScanStringOf(s1, u, rest2, NameWidth);
    ScanStringOf(s2, p, s3, NameWidth);
    ScanLineOfThree(line, Token(c, rest1), Token(u, rest2), Token(p, s3));
  }

  /** A line of one short word scans to that word alone. */
  lemma ScanOneWord(c: string)
    requires Word(c, CommandWidth)
    ensures HasWord(c + "\n")
    ensures ScanLine(c + "\n") == Scanned(1, c, "", "")
  {
    var line := c + "\n";
    assert line[0] == c[0];
    assert line == "" + c + "\n";
    ScanStringOf("", c, "\n", CommandWidth);
  }

  /** UPLOAD and DOWNLOAD read back the second word of the line. */
  lemma FileArgOf(c: string, f: string)
    requires Word(c, CommandWidth) && Word(f, FilenameWidth)
    ensures HasWord(c + " " + f + "\n")
    ensures FileArg(c + " " + f + "\n") == Some(f)
  {
    var line := c + " " + f + "\n";
    assert line[0] == c[0];
    var rest := " " + f + "\n";
    assert line == "" + c + rest;
    ScanStringOf("", c, rest, |line|);
    ScanStringOf(" ", f, "\n", FilenameWidth);
  }

  /**
   * A command word longer than nine characters runs into the user name:
   * "signupalice pw" reads as the command "signupali" with the arguments
   * "ce" and "pw".
   */
  lemma LongCommandRunsOn(c: string, x: string, p: string)
    requires Word(c, CommandWidth) && |c| == CommandWidth && Word(x, NameWidth) && Word(p, NameWidth)
    ensures HasWord(c + x + " " + p + "\n")
    ensures ScanLine(c + x + " " + p + "\n") == Scanned(3, c, x, p)
  {
    assert c + x == c + [] + x;
    ScanSeparatedWords(c, [], x, " ", p, "\n");
  }

  // ---------------------------------------------------------------------------
  // What one command does
  // ---------------------------------------------------------------------------

  /** The global table: at most ten entries with distinct names, each name and password a scanned word. */
  predicate TableOk(accounts: seq<Account>) {
    && |accounts| <= MaxAccounts
    && (forall i, j | 0 <= i < j < |accounts| :: accounts[i].username != accounts[j].username)
    && (forall i | 0 <= i < |accounts| :: Word(accounts[i].username, NameWidth) && Word(accounts[i].password, NameWidth))
  }

  /** A logged-in session names a scanned word. */
  predicate SessionOk(session: Session) {
    session.authenticated ==> Word(session.username, NameWidth)
  }

  /** A well-formed signup of a new name with room in the table adds the account and logs it in. */
  lemma SignupSucceeds(accounts: seq<Account>, session: Session, sc: Scanned, file: Option<string>)
    requires ScannedOk(sc)
    requires sc.command == "signup" && sc.args == 3 && !NameTaken(accounts, sc.username) && |accounts| < MaxAccounts
    ensures var o := Dispatch(accounts, session, sc, file);
      && o.accounts == accounts + [Account(sc.username, sc.password)]
      && o.session == Session(true, sc.username)
      && o.reply == "Signup successful. You are now logged in.\n"
  {
    TakeAll(sc.username, 49);
    TakeAll(sc.password, 49);
  }

  /**
   * A malformed signup, a taken name or a full table changes nothing; the
   * replies are the first 56, 27 and 26 characters of their literals.
   */
  lemma SignupRejected(accounts: seq<Account>, session: Session, sc: Scanned, file: Option<string>)
    requires sc.command == "signup" && (sc.args != 3 || NameTaken(accounts, sc.username) || |accounts| >= MaxAccounts)
    ensures var o := Dispatch(accounts, session, sc, file);
      && o.accounts == accounts && o.session == session
      && o.reply == if sc.args != 3 then "*** Invalid format. Usage: signup <username> <password>\n"
                    else if NameTaken(accounts, sc.username) then "*** Error: User already exi"
                    else "*** Error: User limit reac"
  {
  }

  /** Every command keeps the table well formed and only ever appends to it. */
  lemma StepKeepsInvariants(accounts: seq<Account>, session: Session, sc: Scanned, file: Option<string>)
    requires ScannedOk(sc) && TableOk(accounts) && SessionOk(session)
    ensures var o := Dispatch(accounts, session, sc, file);
      && TableOk(o.accounts) && SessionOk(o.session)
      && |accounts| <= |o.accounts| <= |accounts| + 1 && o.accounts[..|accounts|] == accounts
  {
    var o := Dispatch(accounts, session, sc, file);
    if sc.command == "signup" && sc.args == 3 && !NameTaken(accounts, sc.username) && |accounts| < MaxAccounts {
      SignupSucceeds(accounts, session, sc, file);
      assert o.accounts[..|accounts|] == accounts;
    } else if sc.command == "login" && sc.args == 3 && !session.authenticated
      && CredentialsMatch(accounts, sc.username, sc.password) {
      TakeAll(sc.username, 49);
      assert o.accounts[..|accounts|] == accounts;
    } else {
      assert o.accounts == accounts;
      assert o.accounts[..|accounts|] == accounts;
    }
  }

  /** Logging in while logged in changes nothing and names the current user in full. */
  lemma LoginWhileLoggedIn(accounts: seq<Account>, session: Session, sc: Scanned, file: Option<string>)
    requires SessionOk(session) && session.authenticated
    requires sc.command == "login" && sc.args == 3
    ensures var o := Dispatch(accounts, session, sc, file);
      && o.accounts == accounts && o.session == session
      && o.reply == "*** Error: Already logged in as '" + session.username + "'\n"
  {
    TakeAll("*** Error: Already logged in as '" + session.username + "'\n", 127);
  }

  /** A logged-out, well-formed login succeeds exactly when some entry matches both name and password. */
  lemma LoginIffCredentials(accounts: seq<Account>, session: Session, sc: Scanned, file: Option<string>)
    requires ScannedOk(sc) && !session.authenticated
    requires sc.command == "login" && sc.args == 3
    ensures var o := Dispatch(accounts, session, sc, file);
      && o.accounts == accounts
      && (o.session.authenticated <==> CredentialsMatch(accounts, sc.username, sc.password))
      && (o.session.authenticated ==> o.session == Session(true, sc.username) && o.reply == "Login successful\n")
      && (!o.session.authenticated ==> o.session == session && o.reply == "*** Error: Invalid credenti")
  {
    TakeAll(sc.username, 49);
  }

  /** A login with other than three words changes nothing and prints the usage. */
  lemma LoginMalformed(accounts: seq<Account>, session: Session, sc: Scanned, file: Option<string>)
    requires sc.command == "login" && sc.args != 3
    ensures Dispatch(accounts, session, sc, file)
      == Outcome(accounts, session, "*** Invalid format. Usage: login <username> <password>\n")
  {
  }

  /** Logout clears a logged-in session; otherwise it only reports the first 21 characters of the error. */
  lemma LogoutEffect(accounts: seq<Account>, session: Session, sc: Scanned, file: Option<string>)
    requires sc.command == "logout"
    ensures var o := Dispatch(accounts, session, sc, file);
      && o.accounts == accounts
      && (session.authenticated ==> o.session == Session(false, "") && o.reply == "Logged out successfully\n")
      && (!session.authenticated ==> o.session == session && o.reply == "*** Error: Not logged")
  {
  }

  /**
   * UPLOAD never changes the state. Logged out it prints the first 26
   * characters of the login error; logged in it echoes the file argument in
   * full, or prints the usage when there is none.
   */
  lemma UploadEffect(accounts: seq<Account>, session: Session, sc: Scanned, file: Option<string>)
    requires sc.command == "UPLOAD"
    requires file.Some? ==> Word(file.value, FilenameWidth)
    ensures var o := Dispatch(accounts, session, sc, file);
      && o.accounts == accounts && o.session == session
      && (!session.authenticated ==> o.reply == "*** Error: Please login fi")
      && (session.authenticated && file.Some? ==>
            o.reply == "Upload command received for file: " + file.value + "\n")
      && (session.authenticated && file.None? ==> o.reply == "*** Invalid format. Usage: UPLOAD <filename>\n")
  {
    if session.authenticated && file.Some? {
      TakeAll("Upload command received for file: " + file.value + "\n", 299);
    }
  }

  /** DOWNLOAD behaves as UPLOAD does, with its own wording. */
  lemma DownloadEffect(accounts: seq<Account>, session: Session, sc: Scanned, file: Option<string>)
    requires sc.command == "DOWNLOAD"
    requires file.Some? ==> Word(file.value, FilenameWidth)
    ensures var o := Dispatch(accounts, session, sc, file);
      && o.accounts == accounts && o.session == session
      && (!session.authenticated ==> o.reply == "*** Error: Please login fi")
      && (session.authenticated && file.Some? ==>
            o.reply == "Download command received for file: " + file.value + "\n")
      && (session.authenticated && file.None? ==> o.reply == "*** Invalid format. Usage: DOWNLOAD <filename>\n")
  {
    if session.authenticated && file.Some? {
      TakeAll("Download command received for file: " + file.value + "\n", 299);
    }
  }

  /** Any other first word, LIST and DELETE among them, changes nothing and is answered as unknown. */
  lemma UnknownCommandEffect(accounts: seq<Account>, session: Session, sc: Scanned, file: Option<string>)
    requires sc.command != "signup" && sc.command != "login" && sc.command != "logout"
    requires sc.command != "UPLOAD" && sc.command != "DOWNLOAD"
    ensures Dispatch(accounts, session, sc, file) == Outcome(accounts, session, "*** Unknown command\n")
  {
  }

  /** A line of one word that is no command, such as the client's LIST, is answered as unknown. */
  lemma OneWordUnknown(accounts: seq<Account>, session: Session, c: string)
    requires Word(c, CommandWidth)
    requires c != "signup" && c != "login" && c != "logout" && c != "UPLOAD" && c != "DOWNLOAD"
    ensures HasWord(c + "\n")
    ensures Step(accounts, session, c + "\n") == Outcome(accounts, session, "*** Unknown command\n")
  {
    ScanOneWord(c);
    UnknownCommandEffect(accounts, session, ScanLine(c + "\n"), FileArg(c + "\n"));
  }

  /** LIST, which the client sends, has no handler. */
  lemma ListUnknown(accounts: seq<Account>, session: Session, c: string)
    requires c == "LIST"
    ensures HasWord(c + "\n")
    ensures Step(accounts, session, c + "\n") == Outcome(accounts, session, "*** Unknown command\n")
  {
    OneWordUnknown(accounts, session, c);
  }

  // ---------------------------------------------------------------------------
  // The dispatcher over the global table and a session object
  // ---------------------------------------------------------------------------

  /** Two successful conversions followed by white space only give a two-field scan. */
  lemma ScanLineOfTwo(line: string, c: Token, u: Token)
    requires ScanString(line, CommandWidth) == Some(c)
    requires ScanString(c.rest, NameWidth) == Some(u)
    requires AllSpace(u.rest)
    ensures HasWord(line) && ScanLine(line) == Scanned(2, c.word, u.word, "")
  {
  }

  /** A command word and one argument, separated by and followed by white space, scan to those two words. */
  lemma ScanSeparatedTwo(c: string, s1: string, u: string, s2: string)
    requires Word(c, CommandWidth) && Word(u, NameWidth)
    requires s1 != [] && AllSpace(s1) && AllSpace(s2)
    ensures HasWord(c + s1 + u + s2)
    ensures ScanLine(c + s1 + u + s2) == Scanned(2, c, u, "")
  {
    var line := c + s1 + u + s2;
    var rest := s1 + u + s2;
    assert line == [] + c + rest;
    ScanStringOf([], c, rest, CommandWidth);
    ScanStringOf(s1, u, s2, NameWidth);
    ScanLineOfTwo(line, Token(c, rest), Token(u, s2));
  }

  /** A line of two short words (a command and an argument) scans to those two words. */
  lemma ScanTwoWords(c: string, u: string)
    requires Word(c, CommandWidth) && Word(u, NameWidth)
    ensures HasWord(c + " " + u + "\n")
    ensures ScanLine(c + " " + u + "\n") == Scanned(2, c, u, "")
  {
    ScanSeparatedTwo(c, " ", u, "\n");
  }

  /** The command lines of the test client: a command word and two arguments, or one word alone. */
  lemma StepThree(accounts: seq<Account>, session: Session, c: string, u: string, p: string)
    requires Word(c, CommandWidth) && Word(u, NameWidth) && Word(p, NameWidth)
    ensures HasWord(c + " " + u + " " + p + "\n")
    ensures Step(accounts, session, c + " " + u + " " + p + "\n")
      == Dispatch(accounts, session, Scanned(3, c, u, p), FileArg(c + " " + u + " " + p + "\n"))
  {
    ScanThreeWords(c, u, p);
  }

  lemma StepOne(accounts: seq<Account>, session: Session, c: string)
    requires Word(c, CommandWidth)
    ensures HasWord(c + "\n")
    ensures Step(accounts, session, c + "\n") == Dispatch(accounts, session, Scanned(1, c, "", ""), FileArg(c + "\n"))
  {
    ScanOneWord(c);
  }

  /** The words the test client types are words `sscanf` converts whole. */
  lemma ScriptWords()
    ensures Word("signup", CommandWidth) && Word("login", CommandWidth) && Word("logout", CommandWidth)
    ensures Word("LIST", CommandWidth) && Word("INVALID", CommandWidth) && Word("cmd", NameWidth)
    ensures "LIST" != "signup" && "LIST" != "login" && "LIST" != "logout" && "LIST" != "UPLOAD" && "LIST" != "DOWNLOAD"
    ensures "INVALID" != "signup" && "INVALID" != "login" && "INVALID" != "logout"
    ensures "INVALID" != "UPLOAD" && "INVALID" != "DOWNLOAD"
  {
    assert "LIST"[0] == 'L' && "INVALID"[0] == 'I';
  }

  /**
   * The eleven lines the test client sends (tests/client.c:36-48), from an
   * empty table and a logged-out session, each line's outcome feeding the
   * next: signup logs the new user in; LIST is unknown; a second login is
   * refused while logged in; logout succeeds; LIST is unknown; the user logs
   * back in; signing up the same name again is refused; a second logout;
   * a second user signs up and is logged in; LIST and `INVALID cmd` are
   * unknown.
   */
  lemma ClientScript(u1: string, p1: string, u2: string, p2: string)
    requires Word(u1, NameWidth) && Word(p1, NameWidth) && Word(u2, NameWidth) && Word(p2, NameWidth)
    requires u1 != u2
    ensures HasWord("signup " + u1 + " " + p1 + "\n") && HasWord("signup " + u2 + " " + p2 + "\n")
    ensures HasWord("login " + u1 + " " + p1 + "\n") && HasWord("login " + u2 + " " + p2 + "\n")
    ensures HasWord("logout\n") && HasWord("LIST\n") && HasWord("INVALID cmd\n")
    ensures Step([], Session(false, ""), "signup " + u1 + " " + p1 + "\n")
      == Outcome([Account(u1, p1)], Session(true, u1), "Signup successful. You are now logged in.\n")
    ensures Step([Account(u1, p1)], Session(true, u1), "LIST\n")
      == Outcome([Account(u1, p1)], Session(true, u1), "*** Unknown command\n")
    ensures Step([Account(u1, p1)], Session(true, u1), "login " + u2 + " " + p2 + "\n")
      == Outcome([Account(u1, p1)], Session(true, u1), "*** Error: Already logged in as '" + u1 + "'\n")
    ensures Step([Account(u1, p1)], Session(true, u1), "logout\n")
      == Outcome([Account(u1, p1)], Session(false, ""), "Logged out successfully\n")
    ensures Step([Account(u1, p1)], Session(false, ""), "LIST\n")
      == Outcome([Account(u1, p1)], Session(false, ""), "*** Unknown command\n")
    ensures Step([Account(u1, p1)], Session(false, ""), "login " + u1 + " " + p1 + "\n")
      == Outcome([Account(u1, p1)], Session(true, u1), "Login successful\n")
    ensures Step([Account(u1, p1)], Session(true, u1), "signup " + u1 + " " + p1 + "\n")
      == Outcome([Account(u1, p1)], Session(true, u1), "*** Error: User already exi")
    ensures Step([Account(u1, p1)], Session(false, ""), "signup " + u2 + " " + p2 + "\n")
      == Outcome([Account(u1, p1), Account(u2, p2)], Session(true, u2), "Signup successful. You are now logged in.\n")
    ensures Step([Account(u1, p1), Account(u2, p2)], Session(true, u2), "LIST\n")
      == Outcome([Account(u1, p1), Account(u2, p2)], Session(true, u2), "*** Unknown command\n")
    ensures Step([Account(u1, p1), Account(u2, p2)], Session(true, u2), "INVALID cmd\n")
      == Outcome([Account(u1, p1), Account(u2, p2)], Session(true, u2), "*** Unknown command\n")
  {
    ScriptFirstUser(u1, p1, u2, p2);
    ScriptSecondUser(u1, p1, u2, p2);
  }

  /** Lines one to seven of the script: everything the first user does. */
  lemma ScriptFirstUser(u1: string, p1: string, u2: string, p2: string)
    requires Word(u1, NameWidth) && Word(p1, NameWidth) && Word(u2, NameWidth) && Word(p2, NameWidth)
    ensures HasWord("signup " + u1 + " " + p1 + "\n") && HasWord("login " + u1 + " " + p1 + "\n")
    ensures HasWord("login " + u2 + " " + p2 + "\n") && HasWord("logout\n") && HasWord("LIST\n")
    ensures Step([], Session(false, ""), "signup " + u1 + " " + p1 + "\n")
      == Outcome([Account(u1, p1)], Session(true, u1), "Signup successful. You are now logged in.\n")
    ensures Step([Account(u1, p1)], Session(true, u1), "LIST\n")
      == Outcome([Account(u1, p1)], Session(true, u1), "*** Unknown command\n")
    ensures Step([Account(u1, p1)], Session(true, u1), "login " + u2 + " " + p2 + "\n")
      == Outcome([Account(u1, p1)], Session(true, u1), "*** Error: Already logged in as '" + u1 + "'\n")
    ensures Step([Account(u1, p1)], Session(true, u1), "logout\n")
      == Outcome([Account(u1, p1)], Session(false, ""), "Logged out successfully\n")
    ensures Step([Account(u1, p1)], Session(false, ""), "LIST\n")
      == Outcome([Account(u1, p1)], Session(false, ""), "*** Unknown command\n")
    ensures Step([Account(u1, p1)], Session(false, ""), "login " + u1 + " " + p1 + "\n")
      == Outcome([Account(u1, p1)], Session(true, u1), "Login successful\n")
    ensures Step([Account(u1, p1)], Session(true, u1), "signup " + u1 + " " + p1 + "\n")
      == Outcome([Account(u1, p1)], Session(true, u1), "*** Error: User already exi")
  {
    var t1 := [Account(u1, p1)];
    assert [] + [Account(u1, p1)] == t1;
    ScriptSignup([], Session(false, ""), u1, p1);
    ScriptList(t1, Session(true, u1));
    ScriptLoginWhileLoggedIn(t1, u1, u2, p2);
    ScriptLogout(t1, Session(true, u1));
    ScriptList(t1, Session(false, ""));
    ScriptLogin(u1, p1);
    ScriptSignupTaken(u1, p1);
  }

  /** Lines eight to eleven of the script: the second logout, and a second user signing up. */
  lemma ScriptSecondUser(u1: string, p1: string, u2: string, p2: string)
    requires Word(u1, NameWidth) && Word(p1, NameWidth) && Word(u2, NameWidth) && Word(p2, NameWidth)
    requires u1 != u2
    ensures HasWord("signup " + u2 + " " + p2 + "\n") && HasWord("logout\n")
    ensures HasWord("LIST\n") && HasWord("INVALID cmd\n")
    ensures Step([Account(u1, p1)], Session(true, u1), "logout\n")
      == Outcome([Account(u1, p1)], Session(false, ""), "Logged out successfully\n")
    ensures Step([Account(u1, p1)], Session(false, ""), "signup " + u2 + " " + p2 + "\n")
      == Outcome([Account(u1, p1), Account(u2, p2)], Session(true, u2), "Signup successful. You are now logged in.\n")
    ensures Step([Account(u1, p1), Account(u2, p2)], Session(true, u2), "LIST\n")
      == Outcome([Account(u1, p1), Account(u2, p2)], Session(true, u2), "*** Unknown command\n")
    ensures Step([Account(u1, p1), Account(u2, p2)], Session(true, u2), "INVALID cmd\n")
      == Outcome([Account(u1, p1), Account(u2, p2)], Session(true, u2), "*** Unknown command\n")
  {
    var t1 := [Account(u1, p1)];
    var t2 := [Account(u1, p1), Account(u2, p2)];
    assert t1 + [Account(u2, p2)] == t2;
    ScriptLogout(t1, Session(true, u1));
    assert !NameTaken(t1, u2);
    ScriptSignup(t1, Session(false, ""), u2, p2);
    ScriptList(t2, Session(true, u2));
    ScriptInvalid(t2, Session(true, u2));
  }

  /** The signup lines of the script, for a free name with room in the table. */
  lemma ScriptSignup(accounts: seq<Account>, session: Session, u: string, p: string)
    requires Word(u, NameWidth) && Word(p, NameWidth)
    requires !NameTaken(accounts, u) && |accounts| < MaxAccounts
    ensures HasWord("signup " + u + " " + p + "\n")
    ensures Step(accounts, session, "signup " + u + " " + p + "\n")
      == Outcome(accounts + [Account(u, p)], Session(true, u), "Signup successful. You are now logged in.\n")
  {
    ScriptWords();
    assert "signup " + u + " " + p + "\n" == "signup" + " " + u + " " + p + "\n";
    StepThree(accounts, session, "signup", u, p);
    SignupStep(accounts, session, u, p, FileArg("signup " + u + " " + p + "\n"));
  }

  /** The second signup of the first name, while logged in as it. */
  lemma ScriptSignupTaken(u: string, p: string)
    requires Word(u, NameWidth) && Word(p, NameWidth)
    ensures HasWord("signup " + u + " " + p + "\n")
    ensures Step([Account(u, p)], Session(true, u), "signup " + u + " " + p + "\n")
      == Outcome([Account(u, p)], Session(true, u), "*** Error: User already exi")
  {
    ScriptWords();
    var line := "signup " + u + " " + p + "\n";
    assert line == "signup" + " " + u + " " + p + "\n";
    StepThree([Account(u, p)], Session(true, u), "signup", u, p);
    var t := [Account(u, p)];
    assert NameTaken(t, u) by { assert t[0].username == u; }
    SignupRejected(t, Session(true, u), Scanned(3, "signup", u, p), FileArg(line));
  }

  /** The login of another user while logged in. */
  lemma ScriptLoginWhileLoggedIn(accounts: seq<Account>, u1: string, u2: string, p2: string)
    requires Word(u1, NameWidth) && Word(u2, NameWidth) && Word(p2, NameWidth)
    ensures HasWord("login " + u2 + " " + p2 + "\n")
    ensures Step(accounts, Session(true, u1), "login " + u2 + " " + p2 + "\n")
      == Outcome(accounts, Session(true, u1), "*** Error: Already logged in as '" + u1 + "'\n")
  {
    ScriptWords();
    CommandWordsDiffer();
    var line := "login " + u2 + " " + p2 + "\n";
    assert line == "login" + " " + u2 + " " + p2 + "\n";
    StepThree(accounts, Session(true, u1), "login", u2, p2);
    LoginWhileLoggedIn(accounts, Session(true, u1), Scanned(3, "login", u2, p2), FileArg(line));
  }

  /** The logging back in of the only user. */
  lemma ScriptLogin(u: string, p: string)
    requires Word(u, NameWidth) && Word(p, NameWidth)
    ensures HasWord("login " + u + " " + p + "\n")
    ensures Step([Account(u, p)], Session(false, ""), "login " + u + " " + p + "\n")
      == Outcome([Account(u, p)], Session(true, u), "Login successful\n")
  {
    ScriptWords();
    CommandWordsDiffer();
    var line := "login " + u + " " + p + "\n";
    assert line == "login" + " " + u + " " + p + "\n";
    StepThree([Account(u, p)], Session(false, ""), "login", u, p);
    ReLogin(u, p, FileArg(line));
  }

  /** The logout line, while logged in. */
  lemma ScriptLogout(accounts: seq<Account>, session: Session)
    requires session.authenticated
    ensures HasWord("logout\n")
    ensures Step(accounts, session, "logout\n") == Outcome(accounts, Session(false, ""), "Logged out successfully\n")
  {
    ScriptWords();
    CommandWordsDiffer();
    assert "logout\n" == "logout" + "\n";
    StepOne(accounts, session, "logout");
    LogoutEffect(accounts, session, Scanned(1, "logout", "", ""), FileArg("logout\n"));
  }

  /** The LIST line, answered as unknown in every state. */
  lemma ScriptList(accounts: seq<Account>, session: Session)
    ensures HasWord("LIST\n")
    ensures Step(accounts, session, "LIST\n") == Outcome(accounts, session, "*** Unknown command\n")
  {
    assert "LIST\n" == "LIST" + "\n";
    ListUnknown(accounts, session, "LIST");
  }

  /** `INVALID cmd`: a two-word line whose command has no handler. */
  lemma ScriptInvalid(accounts: seq<Account>, session: Session)
    ensures HasWord("INVALID cmd\n")
    ensures Step(accounts, session, "INVALID cmd\n") == Outcome(accounts, session, "*** Unknown command\n")
  {
    ScriptWords();
    assert "INVALID cmd\n" == "INVALID" + " " + "cmd" + "\n";
    ScanTwoWords("INVALID", "cmd");
    UnknownCommandEffect(accounts, session, Scanned(2, "INVALID", "cmd", ""), FileArg("INVALID cmd\n"));
  }

  /** A signup of two scanned words with a free name and room in the table. */
  lemma SignupStep(accounts: seq<Account>, session: Session, u: string, p: string, file: Option<string>)
    requires Word(u, NameWidth) && Word(p, NameWidth)
    requires !NameTaken(accounts, u) && |accounts| < MaxAccounts
    ensures Dispatch(accounts, session, Scanned(3, "signup", u, p), file)
      == Outcome(accounts + [Account(u, p)], Session(true, u), "Signup successful. You are now logged in.\n")
  {
    var sc := Scanned(3, "signup", u, p);
    assert ScannedOk(sc);
    SignupSucceeds(accounts, session, sc, file);
  }

  /** The account just signed up can log back in. */
  lemma ReLogin(u: string, p: string, file: Option<string>)
    requires Word(u, NameWidth) && Word(p, NameWidth)
    ensures Dispatch([Account(u, p)], Session(false, ""), Scanned(3, "login", u, p), file)
      == Outcome([Account(u, p)], Session(true, u), "Login successful\n")
  {
    var sc := Scanned(3, "login", u, p);
    assert ScannedOk(sc);
    var t := [Account(u, p)];
    assert CredentialsMatch(t, u, p) by { assert t[0].username == u && t[0].password == p; }
    LoginIffCredentials(t, Session(false, ""), sc, file);
  }

  /** A `ClientSession`, updated in place by the dispatcher. */
  class ClientSession {
    var authenticated: bool
    var username: string

    function State(): Session
      reads this
    {
      Session(authenticated, username)
    }

    /** A zeroed session, as the connection handler passes in. */
    constructor ()
      ensures State() == Session(false, "")
    {
      authenticated := false;
      username := "";
    }
  }

  /** The global `users[10]` table and `user_count`. */
  class Server {
    var users: array<Account>
    var userCount: int

    /** The table holds `userCount` entries in use, and they satisfy `TableOk`. */
    ghost predicate Valid()
      reads this, users
    {
      users.Length == MaxAccounts && 0 <= userCount <= MaxAccounts && TableOk(users[..userCount])
    }

    /** The entries in use. */
    ghost function Accounts(): (a: seq<Account>)
      requires Valid()
      reads this, users
      ensures |a| == userCount
    {
      users[..userCount]
    }

    /** The zero-initialised globals. */
    constructor ()
      ensures Valid() && Accounts() == []
    {
      users := new Account[MaxAccounts](_ => Account("", ""));
      userCount := 0;
    }

    /** `handle_commands`: the reply written to the socket, and the new table and session. */
    method HandleCommands(line: string, session: ClientSession) returns (reply: string)
      requires Valid() && HasWord(line)
      modifies this, users, session
      ensures Valid()
      ensures Outcome(Accounts(), session.State(), reply) == Step(old(Accounts()), old(session.State()), line)
      ensures SessionOk(old(session.State())) ==> SessionOk(session.State())
    {
      CommandWordsDiffer();
      var sc := ScanLine(line);
      ghost var before := session.State();
      if SessionOk(before) {
        StepKeepsInvariants(Accounts(), before, sc, FileArg(line));
      }
      if sc.command == "signup" {
        reply := Signup(sc, session);
      } else if sc.command == "login" {
        reply := Login(sc, session);
      } else if sc.command == "logout" {
        reply := Logout(session);
      } else if sc.command == "UPLOAD" {
        reply := FileCommand(line, session, UploadReceived, Take(UploadUsage, 45));
      } else if sc.command == "DOWNLOAD" {
        reply := FileCommand(line, session, DownloadReceived, Take(DownloadUsage, 47));
      } else {
        reply := Take(UnknownCommand, 20);
      }
    }

    /** The signup branch: the duplicate scan of src/commands.c:33-38, then the append. */
    method Signup(sc: Scanned, session: ClientSession) returns (reply: string)
      requires Valid() && ScannedOk(sc)
      modifies this, users, session
      ensures Valid()
      ensures Outcome(Accounts(), session.State(), reply) == SignupOutcome(old(Accounts()), old(session.State()), sc)
    {
      ghost var accounts := Accounts();
      if sc.args != 3 {
        return Take(SignupUsage, 56);
      }
      var i := 0;
      while i < userCount
        invariant 0 <= i <= userCount
        invariant forall j | 0 <= j < i :: accounts[j].username != sc.username
      {
        if users[i].username == sc.username {
          assert accounts[i].username == sc.username;
          return Take(UserExists, 27);
        }
        i := i + 1;
      }
      if userCount < MaxAccounts {
        TakeAll(sc.username, 49);
        TakeAll(sc.password, 49);
        var entry := Account(Take(sc.username, 49), Take(sc.password, 49));
        users[userCount] := entry;
        userCount := userCount + 1;
        assert users[..userCount] == accounts + [entry];
        session.authenticated := true;
        session.username := Take(sc.username, 49);
        reply := Take(SignupDone, 42);
      } else {
        reply := Take(UserLimit, 26);
      }
    }

    /** The login branch: the credential scan of src/commands.c:74-83. */
    method Login(sc: Scanned, session: ClientSession) returns (reply: string)
      requires Valid()
      modifies session
      ensures Outcome(Accounts(), session.State(), reply) == LoginOutcome(Accounts(), old(session.State()), sc)
    {
      ghost var accounts := Accounts();
      if sc.args != 3 {
        return Take(LoginUsage, 55);
      }
      if session.authenticated {
        return AlreadyLoggedIn(session.username);
      }
      var i := 0;
      while i < userCount
        invariant 0 <= i <= userCount
        invariant forall j | 0 <= j < i ::
          !(accounts[j].username == sc.username && accounts[j].password == sc.password)
      {
        if users[i].username == sc.username && users[i].password == sc.password {
          assert accounts[i].username == sc.username && accounts[i].password == sc.password;
          session.authenticated := true;
          session.username := Take(sc.username, 49);
          return Take(LoginDone, 17);
        }
        i := i + 1;
      }
      reply := Take(BadCredentials, 27);
    }

    /** The logout branch: the flag and the name are cleared. */
    method Logout(session: ClientSession) returns (reply: string)
      requires Valid()
      modifies session
      ensures Outcome(Accounts(), session.State(), reply) == LogoutOutcome(Accounts(), old(session.State()))
    {
      if !session.authenticated {
        return Take(NotLoggedIn, 21);
      }
      session.authenticated := false;
      session.username := "";
      reply := Take(LogoutDone, 24);
    }

    /** UPLOAD or DOWNLOAD: a login check, then the second `sscanf` for the file name. */
    method FileCommand(line: string, session: ClientSession, prefix: string, usage: string) returns (reply: string)
      requires HasWord(line)
      ensures reply == FileReply(session.State(), FileArg(line), prefix, usage)
    {
      if !session.authenticated {
        return Take(PleaseLogin, 26);
      }
      match FileArg(line)
      case Some(f) => reply := Received(prefix, f);
      case None => reply := usage;
    }
  }
}
