/**
 * `ProcessEx`: what `StartNewConsole` prepares before it asks Windows for a
 * new console process. That covers the argument checks, the command line
 * with its quoted executable name, the creation flags and the environment
 * block.
 */
module ProcessLaunch {
  import opened Wrappers
  import opened Strings

  // ---- the command line --------------------------------------------------

  /** `StartsWith("\"") && EndsWith("\"")`, compared ordinally. */
  predicate IsQuoted(name: string)
  {
    |name| > 0 && name[0] == '"' && name[|name| - 1] == '"'
  }

  /** The executable part: the trimmed name, in quotes unless it already is quoted. */
  function QuotedName(fileName: string): string
  {
    var name := Trim(fileName);
    if IsQuoted(name) then name else "\"" + name + "\""
  }

  /** The command line handed to `CreateProcess`: the executable part, then a space and the arguments if there are any. */
  function CommandLine(fileName: string, arguments: string): string
  {
    QuotedName(fileName) + if arguments == "" then "" else " " + arguments
  }

  /** `BuildCommandLine`, appending to the builder piece by piece. */
  method BuildCommandLine(executableFileName: string, arguments: string) returns (commandLine: string)
    ensures commandLine == CommandLine(executableFileName, arguments)
  {
    commandLine := "";
    var fileName := Trim(executableFileName);
    var fileNameIsQuoted := IsQuoted(fileName);
    if !fileNameIsQuoted {
      commandLine := commandLine + "\"";
    }
    commandLine := commandLine + fileName;
    if !fileNameIsQuoted {
      commandLine := commandLine + "\"";
    }
    assert commandLine == QuotedName(executableFileName);
    if arguments != "" {
      commandLine := commandLine + " ";
      commandLine := commandLine + arguments;
    }
  }

  /**
   * The command line always starts with a quote, so the executable part is
   * always delimited; a name that is a lone quote is the one case where it
   * does not close.
   */
  lemma CommandLineStartsQuoted(fileName: string, arguments: string)
    ensures var r := CommandLine(fileName, arguments);
      |r| >= 1 && r[0] == '"' && r[..|QuotedName(fileName)|] == QuotedName(fileName)
  {
    var q := QuotedName(fileName);
    assert q[0] == '"';
    assert CommandLine(fileName, arguments)[..|q|] == q;
  }

  /** The arguments follow the executable part after one space exactly when there are any. */
  lemma CommandLineArguments(fileName: string, arguments: string)
    ensures var r := CommandLine(fileName, arguments);
      && (arguments == "" <==> r == QuotedName(fileName))
      && (arguments != "" ==> r[|QuotedName(fileName)|..] == " " + arguments)
  {
    var q := QuotedName(fileName);
    if arguments != "" {
      assert |CommandLine(fileName, arguments)| > |q|;
      assert CommandLine(fileName, arguments)[|q|..] == " " + arguments;
    }
  }

  /** The name `CreateProcess` reads first: what lies between the leading quote and the next one. */
  function ExecutableOf(commandLine: string): string
  {
    if commandLine == [] || commandLine[0] != '"' then commandLine
    else
      var rest := commandLine[1..];
      var close := IndexOf(rest, '"');
      if close < 0 then rest else rest[..close]
  }

  /** The name without its delimiting quotes. */
  function Unquoted(name: string): string
  {
    if IsQuoted(name) && |name| >= 2 then name[1..|name| - 1] else name
  }

  /**
   * The quoting fixes exactly which part of the command line is the file
   * to run: the trimmed name, whatever the arguments hold, as long as the
   * name has no quote of its own.
   */
  lemma CommandLineExecutable(fileName: string, arguments: string)
    requires '"' !in Unquoted(Trim(fileName))
    requires IsQuoted(Trim(fileName)) ==> |Trim(fileName)| >= 2
    ensures ExecutableOf(CommandLine(fileName, arguments)) == Unquoted(Trim(fileName))
  {
    var name := Unquoted(Trim(fileName));
    QuotedNameShape(fileName);
    ExecutableOfQuoted(name, if arguments == "" then "" else " " + arguments);
  }

  lemma QuotedNameShape(fileName: string)
    requires IsQuoted(Trim(fileName)) ==> |Trim(fileName)| >= 2
    ensures QuotedName(fileName) == "\"" + Unquoted(Trim(fileName)) + "\""
  {
    var t := Trim(fileName);
    if IsQuoted(t) {
      assert t == [t[0]] + t[1..|t| - 1] + [t[|t| - 1]];
    }
  }

  lemma ExecutableOfQuoted(name: string, tail: string)
    requires '"' !in name
    ensures ExecutableOf("\"" + name + "\"" + tail) == name
  {
    var rest := ("\"" + name + "\"" + tail)[1..];
    assert rest == name + "\"" + tail;
    assert rest[..|name|] == name;
    assert rest[|name|] == '"';
    assert IndexOf(rest, '"') == |name|;
  }

  // ---- the environment block ---------------------------------------------

  /**
   * Ordinal order on strings: character by character, a prefix first. It
   * stands in for the culture-sensitive `Comparer<string>.Default`.
   */
  predicate Below(a: string, b: string)
    decreases |a|
  {
    if a == [] then b != []
    else b != [] && (a[0] < b[0] || (a[0] == b[0] && Below(a[1..], b[1..])))
  }

  lemma {:induction false} BelowIrreflexive(a: string)
    ensures !Below(a, a)
    decreases |a|
  {
    if a != [] {
      BelowIrreflexive(a[1..]);
    }
  }

  lemma {:induction false} BelowTransitive(a: string, b: string, c: string)
    requires Below(a, b) && Below(b, c)
    ensures Below(a, c)
    decreases |a|
  {
    if a != [] && a[0] == b[0] && b[0] == c[0] {
      BelowTransitive(a[1..], b[1..], c[1..]);
    }
  }

  lemma {:induction false} BelowTotal(a: string, b: string)
    requires a != b
    ensures Below(a, b) || Below(b, a)
    decreases |a|
  {
    if a != [] && b != [] && a[0] == b[0] {
      assert a == [a[0]] + a[1..] && b == [b[0]] + b[1..];
      BelowTotal(a[1..], b[1..]);
    }
  }

  /** Strictly increasing in ordinal order: sorted, and no key twice. */
  predicate Sorted(keys: seq<string>)
  {
    forall i, j :: 0 <= i < j < |keys| ==> Below(keys[i], keys[j])
  }

  /** `keys` lists the set `s` in ordinal order. */
  ghost predicate KeyOrder(keys: seq<string>, s: set<string>)
  {
    Sorted(keys) && (forall k :: k in keys <==> k in s)
  }

  /** A key put into its place among sorted keys that do not hold it. */
  function Insert(k: string, keys: seq<string>): (r: seq<string>)
    requires Sorted(keys) && k !in keys
    ensures Sorted(r) && |r| == |keys| + 1
    ensures forall x :: x in r <==> x == k || x in keys
  {
    if keys == [] then [k]
    else if Below(k, keys[0]) then
      assert forall j :: 0 <= j < |keys| ==> Below(k, keys[j]) by {
        forall j | 0 <= j < |keys| ensures Below(k, keys[j]) {
          if j > 0 {
            BelowTransitive(k, keys[0], keys[j]);
          }
        }
      }
      [k] + keys
    else
      var rest := Insert(k, keys[1..]);
      assert Below(keys[0], k) by {
        BelowTotal(k, keys[0]);
      }
      assert forall x :: x in rest ==> Below(keys[0], x) by {
        forall x | x in rest ensures Below(keys[0], x) {
          if x != k {
            var j :| 0 <= j < |keys[1..]| && keys[1..][j] == x;
            assert keys[j + 1] == x;
          }
        }
      }
      [keys[0]] + rest
  }

  /** The keys of a set in ordinal order, as a definition. */
  ghost function SortedKeys(s: set<string>): (r: seq<string>)
    ensures KeyOrder(r, s)
    decreases s
  {
    if s == {} then []
    else
      var k :| k in s;
      Insert(k, SortedKeys(s - {k}))
  }

  /** Only one sequence lists a set in ordinal order. */
  lemma {:induction false} KeyOrderUnique(a: seq<string>, b: seq<string>, s: set<string>)
    requires KeyOrder(a, s) && KeyOrder(b, s)
    ensures a == b
    decreases |a|
  {
    KeyOrderEmpty(a, s);
    KeyOrderEmpty(b, s);
    if a != [] {
      if a[0] != b[0] {
        assert b[0] in a;
        assert a[0] in b;
        var i :| 0 <= i < |a| && a[i] == b[0];
        var j :| 0 <= j < |b| && b[j] == a[0];
        assert Below(a[0], b[0]) by {
          if i == 0 {
          }
        }
        assert Below(b[0], a[0]) by {
          if j == 0 {
          }
        }
        BelowTransitive(a[0], b[0], a[0]);
        BelowIrreflexive(a[0]);
      }
      var t := s - {a[0]};
      assert forall k :: k in a[1..] ==> k != a[0] by {
        forall k | k in a[1..] ensures k != a[0] {
          var i :| 0 <= i < |a[1..]| && a[1..][i] == k;
          assert Below(a[0], a[i + 1]);
          BelowIrreflexive(a[0]);
        }
      }
      assert forall k :: k in b[1..] ==> k != b[0] by {
        forall k | k in b[1..] ensures k != b[0] {
          var i :| 0 <= i < |b[1..]| && b[1..][i] == k;
          assert Below(b[0], b[i + 1]);
          BelowIrreflexive(b[0]);
        }
      }
      assert forall k :: k in a[1..] <==> k in t by {
        forall k ensures k in a[1..] <==> k in t {
          assert k in a <==> k == a[0] || k in a[1..];
        }
      }
      assert forall k :: k in b[1..] <==> k in t by {
        forall k ensures k in b[1..] <==> k in t {
          assert k in b <==> k == b[0] || k in b[1..];
        }
      }
      KeyOrderUnique(a[1..], b[1..], t);
      assert a == [a[0]] + a[1..] && b == [b[0]] + b[1..];
    }
  }

  lemma KeyOrderEmpty(a: seq<string>, s: set<string>)
    requires KeyOrder(a, s)
    ensures a == [] <==> s == {}
  {
    if a != [] {
      assert a[0] in s;
    }
  }

  /**
   * The keys of the dictionary for `sd.OrderBy(e => e.Key)`, sorted in
   * ordinal order; the source's comparer is the current culture's.
   */
  method OrderByKey(sd: map<string, string>) returns (keys: seq<string>)
    ensures KeyOrder(keys, sd.Keys)
  {
    keys := [];
    var rest := sd.Keys;
    while rest != {}
      invariant rest <= sd.Keys
      invariant Sorted(keys) && forall k :: k in keys <==> k in sd.Keys && k !in rest
      decreases rest
    {
      var k :| k in rest;
      keys := Insert(k, keys);
      rest := rest - {k};
    }
  }

  /** One `key=value` entry. */
  function Entry(key: string, value: string): string
  {
    key + "=" + value
  }

  /** The entries of the dictionary in the order of `keys`. */
  function Entries(keys: seq<string>, sd: map<string, string>): (es: seq<string>)
    requires forall k :: k in keys ==> k in sd
    ensures |es| == |keys|
  {
    seq(|keys|, i requires 0 <= i < |keys| => Entry(keys[i], sd[keys[i]]))
  }

  /** Every part followed by a `'\0'`. */
  function Terminated(parts: seq<string>): string
  {
    if parts == [] then "" else parts[0] + "\0" + Terminated(parts[1..])
  }

  lemma {:induction false} TerminatedSnoc(parts: seq<string>, p: string)
    ensures Terminated(parts + [p]) == Terminated(parts) + p + "\0"
  {
    if parts != [] {
      assert (parts + [p])[1..] == parts[1..] + [p];
      TerminatedSnoc(parts[1..], p);
    } else {
      assert [p][1..] == [];
    }
  }

  /**
   * The environment block as text: the `key=value` entries in key order,
   * each terminated by `'\0'`, and one more `'\0'` to end the list.
   */
  ghost function Block(sd: map<string, string>): string
  {
    Terminated(Entries(SortedKeys(sd.Keys), sd)) + "\0"
  }

  /** `Encoding.Unicode`: UTF-16, little-endian, a surrogate pair for a character beyond the first plane. */
  function Utf16(s: string): (bytes: seq<bv8>)
    ensures |bytes| >= 2 * |s|
  {
    if s == [] then [] else CodeUnits(s[0] as int) + Utf16(s[1..])
  }

  function CodeUnits(c: int): (bytes: seq<bv8>)
    requires 0 <= c <= 0x10FFFF
    ensures |bytes| == 2 || |bytes| == 4
  {
    if c < 0x10000 then LittleEndian16(c)
    else
      var u := c - 0x10000;
      LittleEndian16(0xD800 + u / 0x400) + LittleEndian16(0xDC00 + u % 0x400)
  }

  function LittleEndian16(v: int): (bytes: seq<bv8>)
    requires 0 <= v < 0x10000
    ensures |bytes| == 2
  {
    [(v % 256) as bv8, (v / 256) as bv8]
  }

  /** `UInt16.MaxValue`: the largest environment block the non-Unicode path accepts. */
  const MAX_ANSI_BLOCK: int := 65535

  /** The exceptions `StartNewConsole` throws before any process is created. */
  datatype LaunchError =
    | OutputEncodingWithoutRedirect
    | ErrorEncodingWithoutRedirect
    | LogonNotSupported
    | EnvironmentBlockTooLong

  /** One more entry of the loop over the sorted keys. */
  lemma EntriesSnoc(keys: seq<string>, sd: map<string, string>, i: int)
    requires forall k :: k in keys ==> k in sd
    requires 0 <= i < |keys|
    ensures Terminated(Entries(keys[..i + 1], sd)) == Terminated(Entries(keys[..i], sd)) + keys[i] + "=" + sd[keys[i]] + "\0"
  {
    assert Entries(keys[..i + 1], sd) == Entries(keys[..i], sd) + [Entry(keys[i], sd[keys[i]])];
    TerminatedSnoc(Entries(keys[..i], sd), Entry(keys[i], sd[keys[i]]));
  }

  /**
   * `EnvironmentBlock.ToByteArray`: the block in UTF-16, or in the default
   * encoding (`defaultEncoding`, which the code does not define) as long as
   * that fits in 65535 bytes.
   */
  method ToByteArray(sd: map<string, string>, unicode: bool, defaultEncoding: string -> seq<bv8>)
    returns (r: Result<seq<bv8>, LaunchError>)
    ensures unicode ==> r == Ok(Utf16(Block(sd)))
    ensures !unicode ==>
      r == if |defaultEncoding(Block(sd))| > MAX_ANSI_BLOCK then Err(EnvironmentBlockTooLong)
           else Ok(defaultEncoding(Block(sd)))
  {
    var keys := OrderByKey(sd);
    KeyOrderUnique(keys, SortedKeys(sd.Keys), sd.Keys);
    var stringBuff := "";
    for i := 0 to |keys|
      invariant stringBuff == Terminated(Entries(keys[..i], sd))
    {
      EntriesSnoc(keys, sd, i);
      stringBuff := stringBuff + keys[i];
      stringBuff := stringBuff + "=";
      stringBuff := stringBuff + sd[keys[i]];
      stringBuff := stringBuff + "\0";
    }
    assert keys[..|keys|] == keys;
    stringBuff := stringBuff + "\0";
    if unicode {
      r := Ok(Utf16(stringBuff));
    } else {
      var envBlock := defaultEncoding(stringBuff);
      if |envBlock| > MAX_ANSI_BLOCK {
        return Err(EnvironmentBlockTooLong);
      }
      r := Ok(envBlock);
    }
  }

  /** An empty dictionary gives the block of one `'\0'`. */
  lemma BlockOfEmpty()
    ensures Block(map[]) == "\0"
  {
    assert SortedKeys({}) == [];
  }

  // ---- reading a block back ----------------------------------------------

  /** The entries of a block: what lies between its `'\0'`s, less the two empty parts at its end. */
  function BlockEntries(block: string): seq<string>
  {
    var parts := Split(block, '\0');
    if |parts| < 2 then [] else parts[..|parts| - 2]
  }

  /** An entry split at its first `=`. */
  function KeyOf(entry: string): string
  {
    var i := IndexOf(entry, '=');
    if i < 0 then entry else entry[..i]
  }

  function ValueOf(entry: string): string
  {
    var i := IndexOf(entry, '=');
    if i < 0 then "" else entry[i + 1..]
  }

  /** The dictionary the entries describe, a later entry winning over an earlier one. */
  function MapOf(entries: seq<string>): map<string, string>
  {
    if entries == [] then map[]
    else MapOf(entries[..|entries| - 1])[KeyOf(entries[|entries| - 1]) := ValueOf(entries[|entries| - 1])]
  }

  /** What a process reading the block back finds in it. */
  ghost function ParseBlock(block: string): map<string, string>
  {
    MapOf(BlockEntries(block))
  }

  /** The keys and values a block can carry unambiguously: no `'\0'` anywhere and no `=` in a key. */
  predicate Representable(sd: map<string, string>)
  {
    forall k :: k in sd ==> '\0' !in k && '=' !in k && '\0' !in sd[k]
  }

  lemma {:induction false} TerminatedJoin(parts: seq<string>)
    ensures Terminated(parts) + "\0" == Join(parts + ["", ""], '\0')
  {
    if parts != [] {
      TerminatedJoin(parts[1..]);
      assert (parts + ["", ""])[1..] == parts[1..] + ["", ""];
      assert Terminated(parts) + "\0" == parts[0] + "\0" + (Terminated(parts[1..]) + "\0");
    } else {
      assert Join(["", ""], '\0') == "" + ['\0'] + Join([""], '\0');
    }
  }

  lemma EntrySplit(key: string, value: string)
    requires '=' !in key
    ensures KeyOf(Entry(key, value)) == key && ValueOf(Entry(key, value)) == value
  {
    var e := Entry(key, value);
    assert e[..|key|] == key && e[|key|] == '=';
    assert IndexOf(e, '=') == |key|;
    assert e[|key| + 1..] == value;
  }

  lemma {:induction false} MapOfEntries(keys: seq<string>, sd: map<string, string>)
    requires forall k :: k in keys ==> k in sd
    requires Representable(sd)
    ensures forall k :: k in MapOf(Entries(keys, sd)) <==> k in keys
    ensures forall k :: k in MapOf(Entries(keys, sd)) ==> MapOf(Entries(keys, sd))[k] == sd[k]
  {
    if keys != [] {
      var init := keys[..|keys| - 1];
      var k := keys[|keys| - 1];
      var es := Entries(keys, sd);
      EntriesInit(keys, sd);
      EntrySplit(k, sd[k]);
      MapOfEntries(init, sd);
      var m := MapOf(Entries(init, sd));
      assert MapOf(es) == m[k := sd[k]];
      assert forall x :: x in keys <==> x in init || x == k by {
        assert keys == init + [k];
      }
    }
  }

  lemma EntriesInit(keys: seq<string>, sd: map<string, string>)
    requires forall k :: k in keys ==> k in sd
    requires keys != []
    ensures var es := Entries(keys, sd);
      && es[..|es| - 1] == Entries(keys[..|keys| - 1], sd)
      && es[|es| - 1] == Entry(keys[|keys| - 1], sd[keys[|keys| - 1]])
  {
  }

  /**
   * A process reading the block back finds the dictionary it was built
   * from, provided no key holds `=` and nothing holds `'\0'`.
   */
  lemma BlockRoundTrip(sd: map<string, string>)
    requires Representable(sd)
    ensures ParseBlock(Block(sd)) == sd
  {
    var keys := SortedKeys(sd.Keys);
    BlockEntriesOf(sd);
    MapOfEntries(keys, sd);
    var m := MapOf(Entries(keys, sd));
    assert m.Keys == sd.Keys;
  }

  /** The entries a block of representable keys and values is read back into are the ones it was built from. */
  lemma BlockEntriesOf(sd: map<string, string>)
    requires Representable(sd)
    ensures BlockEntries(Block(sd)) == Entries(SortedKeys(sd.Keys), sd)
  {
    var keys := SortedKeys(sd.Keys);
    var es := Entries(keys, sd);
    var parts := es + ["", ""];
    TerminatedJoin(es);
    assert NoneContains(parts, '\0') by {
      forall i | 0 <= i < |parts| ensures '\0' !in parts[i] {
        if i < |es| {
          assert parts[i] == keys[i] + "=" + sd[keys[i]];
        }
      }
    }
    SplitJoin(parts, '\0');
    assert parts[..|es|] == es;
  }

  // ---- the checks and the creation flags ---------------------------------

  const CREATE_NEW_CONSOLE: bv32 := 0x0000_0010
  const CREATE_UNICODE_ENVIRONMENT: bv32 := 0x0000_0400
  const CREATE_NO_WINDOW: bv32 := 0x0800_0000

  /** The parts of `ProcessStartInfo` the preparation reads; an environment is present once it was asked for. */
  datatype StartInfo = StartInfo(
    fileName: string,
    arguments: string,
    userName: string,
    workingDirectory: string,
    createNoWindow: bool,
    redirectStandardOutput: bool,
    redirectStandardError: bool,
    standardOutputEncoding: Option<string>,
    standardErrorEncoding: Option<string>,
    environment: Option<map<string, string>>)

  /** What `CreateProcess` would be called with. */
  datatype Launch = Launch(commandLine: string, creationFlags: bv32, environment: Option<seq<bv8>>,
                           workingDirectory: string)

  /** The flags: a new console always, no window when asked, a Unicode environment when there is one. */
  function CreationFlags(createNoWindow: bool, hasEnvironment: bool): bv32
  {
    CREATE_NEW_CONSOLE
    | (if createNoWindow then CREATE_NO_WINDOW else 0)
    | (if hasEnvironment then CREATE_UNICODE_ENVIRONMENT else 0)
  }

  lemma CreationFlagsBits(createNoWindow: bool, hasEnvironment: bool)
    ensures var flags := CreationFlags(createNoWindow, hasEnvironment);
      && flags & CREATE_NEW_CONSOLE != 0
      && (flags & CREATE_NO_WINDOW != 0 <==> createNoWindow)
      && (flags & CREATE_UNICODE_ENVIRONMENT != 0 <==> hasEnvironment)
      && flags & !(CREATE_NEW_CONSOLE | CREATE_NO_WINDOW | CREATE_UNICODE_ENVIRONMENT) == 0
  {
  }

  /** The exception the checks throw, in the order the code makes them, if any. */
  function CheckError(info: StartInfo): Option<LaunchError>
  {
    if info.standardOutputEncoding.Some? && !info.redirectStandardOutput then Some(OutputEncodingWithoutRedirect)
    else if info.standardErrorEncoding.Some? && !info.redirectStandardError then Some(ErrorEncodingWithoutRedirect)
    else if info.userName != "" then Some(LogonNotSupported)
    else None
  }

  /**
   * `StartNewConsole` up to the call into Windows: the encoding checks, the
   * command line, the creation flags, the Unicode environment block, the
   * working directory (the current one when none is given) and the logon
   * check.
   */
  method StartNewConsole(startInfo: StartInfo, currentDirectory: string, defaultEncoding: string -> seq<bv8>)
    returns (r: Result<Launch, LaunchError>)
    ensures CheckError(startInfo).Some? ==> r == Err(CheckError(startInfo).value)
    ensures CheckError(startInfo).None? ==>
      r == Ok(Launch(CommandLine(startInfo.fileName, startInfo.arguments),
                     CreationFlags(startInfo.createNoWindow, startInfo.environment.Some?),
                     if startInfo.environment.Some? then Some(Utf16(Block(startInfo.environment.value))) else None,
                     if startInfo.workingDirectory == "" then currentDirectory else startInfo.workingDirectory))
  {
    if startInfo.standardOutputEncoding.Some? && !startInfo.redirectStandardOutput {
      return Err(OutputEncodingWithoutRedirect);
    }
    if startInfo.standardErrorEncoding.Some? && !startInfo.redirectStandardError {
      return Err(ErrorEncodingWithoutRedirect);
    }
    var commandLine := BuildCommandLine(startInfo.fileName, startInfo.arguments);
    var creationFlags := CREATE_NEW_CONSOLE;
    if startInfo.createNoWindow {
      creationFlags := creationFlags | CREATE_NO_WINDOW;
    }
    var environment: Option<seq<bv8>> := None;
    if startInfo.environment.Some? {
      var unicode := true;
      creationFlags := creationFlags | CREATE_UNICODE_ENVIRONMENT;
      var environmentBytes := ToByteArray(startInfo.environment.value, unicode, defaultEncoding);
      environment := Some(environmentBytes.value);
    }
    var workingDirectory := startInfo.workingDirectory;
    if workingDirectory == "" {
      workingDirectory := currentDirectory;
    }
    if startInfo.userName != "" {
      return Err(LogonNotSupported);
    }
    r := Ok(Launch(commandLine, creationFlags, environment, workingDirectory));
  }

  /** The preparation fails exactly when one of the checks does, and then with the first failing check. */
  lemma StartNewConsoleChecks(info: StartInfo)
    ensures (CheckError(info) == Some(OutputEncodingWithoutRedirect))
        <==> (info.standardOutputEncoding.Some? && !info.redirectStandardOutput)
    ensures (CheckError(info) == Some(ErrorEncodingWithoutRedirect))
        <==> (&& !(info.standardOutputEncoding.Some? && !info.redirectStandardOutput)
              && info.standardErrorEncoding.Some? && !info.redirectStandardError)
    ensures CheckError(info).None?
        <==> (&& (info.standardOutputEncoding.Some? ==> info.redirectStandardOutput)
              && (info.standardErrorEncoding.Some? ==> info.redirectStandardError)
              && info.userName == "")
  {
  }
}
