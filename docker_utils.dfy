/** The Dockerfile instruction helpers: cache-mount clauses, cache upload commands,
    COPY and COPY --from rendering, and the exec-form CMD line.

    The cache-key sanitizer is not part of this model: every function that needs it
    takes it as the parameter `sanitize`. */
module DockerUtils {
  import opened Wrappers
  import opened Strings

  /** A cache directory with `~` expanded to root's home directory. */
  function ExpandHome(dir: string): (r: string)
    ensures '~' !in r
  {
    ReplaceRemovesChar(dir, '~', "/root");
    Replace(dir, "~", "/root")
  }

  /** The mount clause for one cache directory: the id is the sanitized
      `<key>-<expanded dir>`, the target the expanded directory. */
  function MountClause(key: string, dir: string, sanitize: string -> string): string
  {
    "--mount=type=cache,id=" + sanitize(key + "-" + ExpandHome(dir)) + ",target=" + ExpandHome(dir)
  }

  /** One mount clause per cache directory, in order. */
  function MountClauses(key: string, dirs: seq<string>, sanitize: string -> string): seq<string>
  {
    Map(dir => MountClause(key, dir, sanitize), dirs)
  }

  /** The cache mounts of a phase: one clause per directory, space separated, and
      nothing at all unless both a key and a directory list are given. */
  function CacheMount(cacheKey: Option<string>, cacheDirectories: Option<seq<string>>,
                      sanitize: string -> string): (r: string)
    ensures r == "" <==> cacheKey.None? || cacheDirectories.None? || cacheDirectories.value == []
  {
    match (cacheKey, cacheDirectories)
    case (Some(key), Some(dirs)) => Join(MountClauses(key, dirs, sanitize), " ")
    case _ => ""
  }

  /** The mount string splits back at spaces into exactly one clause per directory, in
      the order of the directories, whenever no clause itself contains a space. */
  lemma CacheMountClauses(key: string, dirs: seq<string>, sanitize: string -> string)
    requires dirs != []
    requires forall i :: 0 <= i < |dirs| ==> ' ' !in MountClause(key, dirs[i], sanitize)
    ensures var clauses := Split(CacheMount(Some(key), Some(dirs), sanitize), ' ');
            |clauses| == |dirs| &&
            forall i :: 0 <= i < |dirs| ==>
              clauses[i] == "--mount=type=cache,id=" + sanitize(key + "-" + ExpandHome(dirs[i]))
                            + ",target=" + ExpandHome(dirs[i])
  {
    SplitJoin(MountClauses(key, dirs, sanitize), ' ');
  }

  /** The shape the unit tests check: two plain directories give two clauses whose ids
      are the sanitized `<key>-<dir>` and whose targets are the directories. */
  lemma CacheMountPlainDirs(key: string, d1: string, d2: string, sanitize: string -> string)
    requires '~' !in d1 && '~' !in d2
    ensures CacheMount(Some(key), Some([d1, d2]), sanitize)
            == "--mount=type=cache,id=" + sanitize(key + "-" + d1) + ",target=" + d1 + " "
               + "--mount=type=cache,id=" + sanitize(key + "-" + d2) + ",target=" + d2
  {
    CacheMountTwoDirs(key, d1, d2, sanitize);
    MountClausePlain(key, d1, sanitize);
    MountClausePlain(key, d2, sanitize);
  }

  /** A directory without `~` is its own expansion. */
  lemma ExpandHomePlain(dir: string)
    requires '~' !in dir
    ensures ExpandHome(dir) == dir
  {
    ReplaceMissingChar(dir, '~', "/root");
  }

  /** The clause of a directory without `~` names the directory as it is. */
  lemma MountClausePlain(key: string, dir: string, sanitize: string -> string)
    requires '~' !in dir
    ensures MountClause(key, dir, sanitize)
            == "--mount=type=cache,id=" + sanitize(key + "-" + dir) + ",target=" + dir
  {
    ReplaceMissingChar(dir, '~', "/root");
  }

  /** Two directories give two clauses joined by one space. */
  lemma CacheMountTwoDirs(key: string, d1: string, d2: string, sanitize: string -> string)
    ensures CacheMount(Some(key), Some([d1, d2]), sanitize)
            == MountClause(key, d1, sanitize) + " " + MountClause(key, d2, sanitize)
  {
    var parts := MountClauses(key, [d1, d2], sanitize);
    assert parts == [MountClause(key, d1, sanitize), MountClause(key, d2, sanitize)];
    assert parts[1..] == [MountClause(key, d2, sanitize)];
    assert Join(parts[1..], " ") == MountClause(key, d2, sanitize);
    assert Join(parts, " ") == parts[0] + " " + Join(parts[1..], " ");
    assert CacheMount(Some(key), Some([d1, d2]), sanitize) == Join(parts, " ");
  }

  /** The archive a cache directory is packed into: the expanded directory with every
      `/` written as `%2f`, so that it names a single file. */
  function ArchiveName(dir: string): (r: string)
    ensures '/' !in r
  {
    ReplaceRemovesChar(ExpandHome(dir), '/', "%2f");
    Replace(ExpandHome(dir), "/", "%2f")
  }

  /** The archive name encodes the directory faithfully: writing `%2f` back as `/`
      recovers any directory free of `%` and `~`. */
  lemma ArchiveNameRoundTrip(dir: string)
    requires '%' !in dir && '~' !in dir
    ensures Replace(ArchiveName(dir), "%2f", "/") == dir
  {
    ExpandHomePlain(dir);
    ReplaceCharRoundTrip(dir, '/', "%2f");
  }

  function TarCommand(dir: string): string
  {
    "tar -cf " + ArchiveName(dir) + ".tar.gz " + ExpandHome(dir)
  }

  function UploadCommand(dir: string, serverUrl: string): string
  {
    "curl -v -F upload=@" + ArchiveName(dir) + ".tar.gz " + serverUrl
  }

  function SendCommands(serverUrl: string, dirs: seq<string>): (r: seq<string>)
    ensures |r| == 2 * |dirs|
    ensures forall i :: 0 <= i < |dirs| ==>
              r[2 * i] == TarCommand(dirs[i]) && r[2 * i + 1] == UploadCommand(dirs[i], serverUrl)
  {
    if dirs == [] then []
    else
      var rest := SendCommands(serverUrl, dirs[1..]);
      assert forall i :: 1 <= i < |dirs| ==>
               rest[2 * (i - 1)] == TarCommand(dirs[i]) && rest[2 * (i - 1) + 1] == UploadCommand(dirs[i], serverUrl);
      [TarCommand(dirs[0]), UploadCommand(dirs[0], serverUrl)] + rest
  }

  /** The shell commands that upload the cache directories: for every directory, in
      order, a tar command packing it and a curl command sending the archive; no
      commands when there is no directory list. */
  function SendCachedDirsCommand(serverUrl: string, cacheDirectories: Option<seq<string>>): (r: seq<string>)
    ensures cacheDirectories.None? ==> r == []
    ensures cacheDirectories.Some? ==>
              var dirs := cacheDirectories.value;
              |r| == 2 * |dirs| &&
              forall i :: 0 <= i < |dirs| ==>
                && r[2 * i] == "tar -cf " + ArchiveName(dirs[i]) + ".tar.gz " + ExpandHome(dirs[i])
                && r[2 * i + 1] == "curl -v -F upload=@" + ArchiveName(dirs[i]) + ".tar.gz " + serverUrl
  {
    match cacheDirectories
    case Some(dirs) => SendCommands(serverUrl, dirs)
    case None => []
  }

  /** A plain COPY of `files` into `appDir`: nothing for no files, otherwise the words
      COPY, the files in order and the destination. */
  function CopyCommand(files: seq<string>, appDir: string): (r: string)
    ensures r == "" <==> files == []
    ensures files != [] ==> r == Join(["COPY"] + files + [appDir], " ")
  {
    if files == [] then ""
    else
      JoinSnoc(["COPY"] + files, appDir, " ");
      assert (["COPY"] + files)[1..] == files;
      "COPY " + Join(files, " ") + " " + appDir
  }

  /** When no file name and not the destination contain a space, the instruction splits
      back into COPY, the files and the destination. */
  lemma CopyCommandWords(files: seq<string>, appDir: string)
    requires files != []
    requires forall i :: 0 <= i < |files| ==> ' ' !in files[i]
    requires ' ' !in appDir
    ensures Split(CopyCommand(files, appDir), ' ') == ["COPY"] + files + [appDir]
  {
    SplitJoin(["COPY"] + files + [appDir], ' ');
  }

  /** A file of a later stage as seen from the first one: every `./` becomes `appDir`. */
  function StageFile(file: string, appDir: string): string
  {
    Replace(file, "./", appDir)
  }

  function StageFiles(files: seq<string>, appDir: string): seq<string>
  {
    Map(f => StageFile(f, appDir), files)
  }

  /** COPY --from: with no files, the whole `appDir` of stage 0 whatever `from` says;
      otherwise the files (with `./` rewritten) of stage `from`, then `appDir`. */
  function CopyFromCommand(from: string, files: seq<string>, appDir: string): (r: string)
    ensures files == [] ==> r == "COPY --from=0 " + appDir + " " + appDir
    ensures files != [] ==>
              r == Join(["COPY", "--from=" + from] + StageFiles(files, appDir) + [appDir], " ")
  {
    if files == [] then "COPY --from=0 " + appDir + " " + appDir
    else
      var staged := StageFiles(files, appDir);
      JoinSnoc(["COPY", "--from=" + from] + staged, appDir, " ");
      assert (["COPY", "--from=" + from] + staged)[1..] == ["--from=" + from] + staged;
      assert (["--from=" + from] + staged)[1..] == staged;
      "COPY --from=" + from + " " + Join(staged, " ") + " " + appDir
  }

  /** With no files the source stage argument plays no part. */
  lemma CopyFromIgnoresStage(from1: string, from2: string, appDir: string)
    ensures CopyFromCommand(from1, [], appDir) == CopyFromCommand(from2, [], appDir)
    ensures CopyFromCommand(from1, [], appDir) == "COPY --from=0 " + appDir + " " + appDir
  {
  }

  /** Files without `./` are copied under their own names. */
  lemma CopyFromPlainFiles(from: string, files: seq<string>, appDir: string)
    requires files != []
    requires forall i :: 0 <= i < |files| ==> !Contains(files[i], "./")
    ensures CopyFromCommand(from, files, appDir)
            == "COPY --from=" + from + " " + Join(files, " ") + " " + appDir
  {
    var staged := StageFiles(files, appDir);
    forall i | 0 <= i < |files| ensures staged[i] == files[i] {
      ReplaceAbsent(files[i], "./", appDir);
    }
    assert staged == files;
  }

  /** Every `"` of the command written as `\"`. */
  function EscapeQuotes(command: string): string
  {
    Replace(command, "\"", "\\\"")
  }

  /** The exec-form start line: the command, quotes escaped, as the one element of a
      JSON array. */
  function ExecCommand(command: string): string
  {
    "CMD [\"" + EscapeQuotes(command) + "\"]"
  }

  /** Every `"` of the escaped command is preceded by a backslash. */
  lemma {:induction false} EscapeQuotesLeavesNoBareQuote(command: string)
    ensures var p := EscapeQuotes(command);
            forall i :: 0 <= i < |p| && p[i] == '"' ==> i > 0 && p[i - 1] == '\\'
  {
    if command != [] {
      EscapeQuotesLeavesNoBareQuote(command[1..]);
      var rest := EscapeQuotes(command[1..]);
      var p := EscapeQuotes(command);
      if command[0] == '"' {
        assert p == "\\\"" + rest;
        forall i | 0 <= i < |p| && p[i] == '"' ensures i > 0 && p[i - 1] == '\\' {
          if i >= 2 { assert p[i] == rest[i - 2]; }
        }
      } else {
        assert p == [command[0]] + rest;
        forall i | 0 <= i < |p| && p[i] == '"' ensures i > 0 && p[i - 1] == '\\' {
          assert p[i] == rest[i - 1];
        }
      }
    }
  }

  /** For a command without backslashes, turning every `\"` back into `"` recovers it. */
  lemma {:induction false} EscapeQuotesRoundTrip(command: string)
    requires '\\' !in command
    ensures Replace(EscapeQuotes(command), "\\\"", "\"") == command
  {
    if command != [] {
      EscapeQuotesRoundTrip(command[1..]);
      var rest := EscapeQuotes(command[1..]);
      if command[0] == '"' {
        assert EscapeQuotes(command) == "\\\"" + rest;
        assert ("\\\"" + rest)[2..] == rest;
      } else {
        assert EscapeQuotes(command) == [command[0]] + rest;
        assert ([command[0]] + rest)[1..] == rest;
      }
      assert [command[0]] + command[1..] == command;
    }
  }


  /** A command without quotes is placed in the CMD line as it is. */
  lemma ExecCommandPlain(command: string)
    requires '"' !in command
    ensures ExecCommand(command) == "CMD [\"" + command + "\"]"
  {
    ReplaceMissingChar(command, '"', "\\\"");
  }

  /** A quoted word inside a command gets both its quotes escaped, as the tests check. */
  lemma ExecCommandQuotedWord(head: string, word: string)
    requires '"' !in head && '"' !in word
    ensures ExecCommand(head + "\"" + word + "\"")
            == "CMD [\"" + head + "\\\"" + word + "\\\"" + "\"]"
  {
    var q := "\"";
    var e := "\\\"";
    assert head + q + word + q == head + (q + (word + q));
    ReplaceCharConcat(head, q + (word + q), '"', e);
    ReplaceCharConcat(q, word + q, '"', e);
    ReplaceCharConcat(word, q, '"', e);
    ReplaceMissingChar(head, '"', e);
    ReplaceMissingChar(word, '"', e);
    assert Replace(q, q, e) == e;
  }

  // JSON string decoding (section 7 of RFC 8259), used to read the exec-form line back.

  predicate IsHexDigit(c: char)
  {
    '0' <= c <= '9' || 'a' <= c <= 'f' || 'A' <= c <= 'F'
  }

  function HexDigitValue(c: char): (v: nat)
    requires IsHexDigit(c)
    ensures v < 16
  {
    if '0' <= c <= '9' then c as int - '0' as int
    else if 'a' <= c <= 'f' then c as int - 'a' as int + 10
    else c as int - 'A' as int + 10
  }

  /** The lower-case hexadecimal digit for a value below 16. */
  function HexDigit(v: nat): (c: char)
    requires v < 16
    ensures IsHexDigit(c) && HexDigitValue(c) == v
  {
    if v < 10 then ('0' as int + v) as char else ('a' as int + v - 10) as char
  }

  function Prepend(c: char, rest: Option<string>): (r: Option<string>)
    ensures r.Some? <==> rest.Some?
    ensures r.Some? ==> r.value == [c] + rest.value
  {
    match rest
    case Some(t) => Some([c] + t)
    case None => None
  }

  /** The character a one-letter escape `\x` stands for, if `x` is one. */
  function ShortEscape(x: char): Option<char>
  {
    match x
    case '"' => Some('"')
    case '\\' => Some('\\')
    case '/' => Some('/')
    case 'b' => Some(8 as char)
    case 'f' => Some(12 as char)
    case 'n' => Some(10 as char)
    case 'r' => Some(13 as char)
    case 't' => Some(9 as char)
    case _ => None
  }

  /** The text a JSON string body stands for, or None when the body is not valid JSON:
      a bare `"`, a raw control character, or a backslash that starts no escape.
      A `\uXXXX` escape naming a surrogate is refused rather than paired. */
  function JsonUnquote(p: string): (r: Option<string>)
    decreases |p|
  {
    if p == [] then Some([])
    else if p[0] == '"' || p[0] < ' ' then None
    else if p[0] != '\\' then Prepend(p[0], JsonUnquote(p[1..]))
    else if |p| < 2 then None
    else if p[1] == 'u' then
      if |p| < 6 || !(IsHexDigit(p[2]) && IsHexDigit(p[3]) && IsHexDigit(p[4]) && IsHexDigit(p[5])) then None
      else
        var v := HexDigitValue(p[2]) * 4096 + HexDigitValue(p[3]) * 256
                 + HexDigitValue(p[4]) * 16 + HexDigitValue(p[5]);
        if 0xD800 <= v < 0xE000 then None else Prepend(v as char, JsonUnquote(p[6..]))
    else match ShortEscape(p[1])
      case Some(c) => Prepend(c, JsonUnquote(p[2..]))
      case None => None
  }

  /** The command a CMD line in exec form runs, when its single array element is a
      valid JSON string; None when the line is not exec form. */
  function ParseExecForm(line: string): Option<string>
  {
    if |line| >= 8 && line[..6] == "CMD [\"" && line[|line| - 2..] == "\"]"
    then JsonUnquote(line[6..|line| - 2])
    else None
  }

  /** The CMD line reads back as the command whenever the command has neither a
      backslash nor a control character. */
  lemma ExecCommandReadsBack(command: string)
    requires '\\' !in command
    requires forall i :: 0 <= i < |command| ==> command[i] >= ' '
    ensures ParseExecForm(ExecCommand(command)) == Some(command)
  {
    EscapedQuotesUnquote(command);
    var line := ExecCommand(command);
    assert line[6..|line| - 2] == EscapeQuotes(command);
  }

  lemma {:induction false} EscapedQuotesUnquote(command: string)
    requires '\\' !in command
    requires forall i :: 0 <= i < |command| ==> command[i] >= ' '
    ensures JsonUnquote(EscapeQuotes(command)) == Some(command)
  {
    if command != [] {
      EscapedQuotesUnquote(command[1..]);
      var rest := EscapeQuotes(command[1..]);
      if command[0] == '"' {
        var p := "\\\"" + rest;
        assert EscapeQuotes(command) == p;
        assert p[2..] == rest;
      } else {
        var p := [command[0]] + rest;
        assert EscapeQuotes(command) == p;
        assert p[1..] == rest;
      }
      assert [command[0]] + command[1..] == command;
    }
  }

  /** A command that is a single backslash yields a CMD line whose array element is not
      a valid JSON string: the backslash escapes the closing quote. */
  lemma ExecCommandBackslash()
    ensures ParseExecForm(ExecCommand("\\")) == None
  {
    ReplaceMissingChar("\\", '"', "\\\"");
    var line := ExecCommand("\\");
    assert line == "CMD [\"\\\"]";
    assert line[6..|line| - 2] == "\\";
  }

  /** A command `\n` (backslash, letter n) yields a CMD line that reads back as a
      newline: the command is silently changed. */
  lemma ExecCommandBackslashLetter()
    ensures ParseExecForm(ExecCommand("\\n")) == Some([10 as char])
  {
    ReplaceMissingChar("\\n", '"', "\\\"");
    var line := ExecCommand("\\n");
    assert line == "CMD [\"\\n\"]";
    assert line[6..|line| - 2] == "\\n";
    var p := "\\n";
    assert p[0] == '\\' && p[1] == 'n' && p[2..] == [];
    assert ShortEscape(p[1]) == Some(10 as char);
    assert JsonUnquote(p) == Prepend(10 as char, JsonUnquote(p[2..]));
    assert JsonUnquote(p[2..]) == Some([]);
    assert [10 as char] + [] == [10 as char];
    assert JsonUnquote(p) == Some([10 as char]);
    assert |line| >= 8 && line[..6] == "CMD [\"" && line[|line| - 2..] == "\"]";
    assert ParseExecForm(line) == JsonUnquote(line[6..|line| - 2]);
  }

  /** One character escaped for a JSON string: quote and backslash by a backslash,
      control characters as `\u00XX`, everything else as it is. */
  function EscapeJsonChar(c: char): string
  {
    if c == '"' then "\\\""
    else if c == '\\' then "\\\\"
    else if c < ' ' then "\\u00" + [HexDigit(c as int / 16), HexDigit(c as int % 16)]
    else [c]
  }

  /** The command escaped character by character. */
  function EscapeJson(command: string): string
    decreases |command|
  {
    if command == [] then [] else EscapeJsonChar(command[0]) + EscapeJson(command[1..])
  }

  /** The exec-form start line with the command escaped as a JSON string. */
  function ExecCommandEscaped(command: string): string
  {
    "CMD [\"" + EscapeJson(command) + "\"]"
  }

  lemma EscapeJsonCharUnquote(c: char, rest: string)
    ensures JsonUnquote(EscapeJsonChar(c) + rest) == Prepend(c, JsonUnquote(rest))
  {
    var p := EscapeJsonChar(c) + rest;
    if c == '"' || c == '\\' {
      assert p[2..] == rest;
    } else if c < ' ' {
      var n := c as int;
      assert p[6..] == rest;
      assert p[2] == '0' && p[3] == '0';
      assert HexDigitValue(p[4]) * 16 + HexDigitValue(p[5]) == n;
    } else {
      assert p[1..] == rest;
    }
  }

  /** Every command reads back from the escaped CMD line exactly. */
  lemma {:induction false} EscapeJsonUnquote(command: string)
    ensures JsonUnquote(EscapeJson(command)) == Some(command)
  {
    if command != [] {
      EscapeJsonUnquote(command[1..]);
      EscapeJsonCharUnquote(command[0], EscapeJson(command[1..]));
      assert [command[0]] + command[1..] == command;
    }
  }

  lemma ExecCommandEscapedReadsBack(command: string)
    ensures ParseExecForm(ExecCommandEscaped(command)) == Some(command)
  {
    EscapeJsonUnquote(command);
    var line := ExecCommandEscaped(command);
    assert line[6..|line| - 2] == EscapeJson(command);
  }
}
