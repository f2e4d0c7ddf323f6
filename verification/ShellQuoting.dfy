/** Quoting words for the shell, against the POSIX shell's rules for taking a command line apart. */
module ShellQuoting {
  import opened Common
  import opened Metadata

  // ----- How the shell reads (IEEE Std 1003.1, Shell Command Language, sections 2.2 and 2.3) -----

  datatype Mode = Blank | Word | Single | Double

  /** The words of the current command so far, and the commands before it. */
  datatype Reader = Reader(mode: Mode, word: string, words: seq<string>, commands: seq<seq<string>>)

  type Environment = map<string, string>

  /** Unquoted, these do something other than stand for themselves. */
  predicate Special(c: char) {
    c in {'|', '&', ';', '<', '>', '(', ')', '$', '`', '*', '?', '[', '#', '~', '%', '!', '{', '}'}
  }

  predicate IsBlank(c: char) {
    c == ' ' || c == '\t'
  }

  predicate NameStart(c: char) {
    'A' <= c <= 'Z' || 'a' <= c <= 'z' || c == '_'
  }

  predicate NameChar(c: char) {
    NameStart(c) || '0' <= c <= '9'
  }

  function NameLength(s: string): (n: nat)
    ensures n <= |s|
  {
    if s == [] || !NameChar(s[0]) then 0 else 1 + NameLength(s[1..])
  }

  function Begin(r: Reader): Reader {
    if r.mode == Blank then r.(mode := Word, word := "") else r
  }

  function Append(r: Reader, text: string): Reader {
    r.(word := r.word + text)
  }

  function EndWord(r: Reader): Reader {
    if r.mode == Word then r.(mode := Blank, word := "", words := r.words + [r.word]) else r
  }

  function EndCommand(r: Reader): Reader {
    var ended := EndWord(r);
    if ended.words == [] then ended else ended.(words := [], commands := ended.commands + [ended.words])
  }

  /** The commands a text consists of; none when a quote is left open or the text needs more of the shell than words. */
  function Read(s: string, env: Environment, r: Reader): Option<seq<seq<string>>>
    decreases |s|
  {
    if s == "" then (if r.mode == Blank || r.mode == Word then Some(EndCommand(r).commands) else None)
    else
      var c, rest := s[0], s[1..];
      if c == '\0' then None
      else
        match r.mode
        case Single =>
          if c == '\'' then Read(rest, env, r.(mode := Word)) else Read(rest, env, Append(r, [c]))
        case Double =>
          if c == '"' then Read(rest, env, r.(mode := Word))
          else if c == '`' then None
          else if c == '$' then
            var n := NameLength(rest);
            if n == 0 || !NameStart(rest[0]) || rest[..n] !in env then None
            else Read(rest[n..], env, Append(r, env[rest[..n]]))
          else if c == '\\' && rest != "" && rest[0] == '\n' then Read(rest[1..], env, r)
          else if c == '\\' && rest != "" && rest[0] in {'$', '`', '"', '\\'}
            then Read(rest[1..], env, Append(r, [rest[0]]))
          else Read(rest, env, Append(r, [c]))
        case _ =>
          if IsBlank(c) then Read(rest, env, EndWord(r))
          else if c == '\n' then Read(rest, env, EndCommand(r))
          else if c == '\'' then Read(rest, env, Begin(r).(mode := Single))
          else if c == '"' then Read(rest, env, Begin(r).(mode := Double))
          else if c == '\\' then
            if rest == "" || rest[0] == '\0' then None
            else if rest[0] == '\n' then Read(rest[1..], env, r)
            else Read(rest[1..], env, Append(Begin(r), [rest[0]]))
          else if Special(c) then None
          else Read(rest, env, Append(Begin(r), [c]))
  }

  const START := Reader(Blank, "", [], [])

  function Commands(s: string, env: Environment): Option<seq<seq<string>>> {
    Read(s, env, START)
  }

  // ----- The printer -----

  function ShellSingleQuote(value: string): string {
    "'" + ReplaceAll(value, '\'', "'\"'\"'") + "'"
  }

  function Arguments(args: seq<string>): string {
    if args == [] then ""
    else if |args| == 1 then ShellSingleQuote(args[0])
    else ShellSingleQuote(args[0]) + " " + Arguments(args[1..])
  }

  ghost predicate Printable(value: string) {
    '\0' !in value
  }

  // ----- Reading back -----

  /** Inside single quotes, the escaped text reads as the value and leaves the reader inside single quotes. */
  lemma {:induction false} EscapedReads(value: string, rest: string, env: Environment, r: Reader)
    requires Printable(value) && r.mode == Single
    ensures Read(ReplaceAll(value, '\'', "'\"'\"'") + rest, env, r) == Read(rest, env, Append(r, value))
  {
    if value == "" {
      assert ReplaceAll(value, '\'', "'\"'\"'") + rest == rest;
      assert r.word + "" == r.word;
    } else {
      var c, more := value[0], value[1..];
      var escaped := ReplaceAll(more, '\'', "'\"'\"'");
      assert c in value && forall d | d in more :: d in value;
      EscapedReads(more, rest, env, Append(r, [c]));
      assert r.word + [c] + more == r.word + value;
      if c == '\'' {
        assert ReplaceAll(value, '\'', "'\"'\"'") + rest == "'\"'\"'" + (escaped + rest);
        QuoteReads(escaped + rest, env, r);
      } else {
        assert ReplaceAll(value, '\'', "'\"'\"'") + rest == [c] + (escaped + rest);
        assert ([c] + (escaped + rest))[1..] == escaped + rest;
      }
    }
  }

  /** A quote leaves single quotes, stands alone in double quotes and enters single quotes again. */
  lemma QuoteReads(rest: string, env: Environment, r: Reader)
    requires r.mode == Single
    ensures Read("'\"'\"'" + rest, env, r) == Read(rest, env, Append(r, "'"))
  {
    var s := "'\"'\"'" + rest;
    var w := r.(mode := Word);
    assert s[1..] == "\"'\"'" + rest && s[1..][1..] == "'\"'" + rest;
    assert s[1..][1..][1..] == "\"'" + rest && s[1..][1..][1..][1..] == "'" + rest;
    assert ("'" + rest)[1..] == rest;
    assert Read(s, env, r) == Read(s[1..], env, w);
    assert Read(s[1..], env, w) == Read("'\"'" + rest, env, r.(mode := Double));
    assert Read("'\"'" + rest, env, r.(mode := Double)) == Read("\"'" + rest, env, Append(r.(mode := Double), "'"));
    assert Read("\"'" + rest, env, Append(r.(mode := Double), "'")) == Read("'" + rest, env, Append(w, "'"));
  }

  /** A quoted value is read as exactly that value, as part of the word it stands in. */
  lemma QuotedReads(value: string, rest: string, env: Environment, r: Reader)
    requires Printable(value) && (r.mode == Blank || r.mode == Word)
    ensures Read(ShellSingleQuote(value) + rest, env, r) == Read(rest, env, Append(Begin(r), value))
  {
    var escaped := ReplaceAll(value, '\'', "'\"'\"'");
    var s := ShellSingleQuote(value) + rest;
    assert s == "'" + (escaped + ("'" + rest));
    assert s[1..] == escaped + ("'" + rest);
    EscapedReads(value, "'" + rest, env, Begin(r).(mode := Single));
    assert ("'" + rest)[1..] == rest;
  }

  /** The printed arguments are read back as exactly those words. */
  lemma {:induction false} ArgumentsRead(args: seq<string>, env: Environment, words: seq<string>,
                                         commands: seq<seq<string>>)
    requires forall i | 0 <= i < |args| :: Printable(args[i])
    ensures Read(Arguments(args), env, Reader(Blank, "", words, commands))
         == Some(EndCommand(Reader(Blank, "", words + args, commands)).commands)
  {
    var r := Reader(Blank, "", words, commands);
    if args == [] {
      assert words + args == words;
    } else {
      var quoted, more := ShellSingleQuote(args[0]), words + [args[0]];
      if |args| == 1 {
        QuotedReads(args[0], "", env, r);
        assert quoted + "" == quoted && "" + args[0] == args[0];
        assert words + args == more;
      } else {
        var rest := Arguments(args[1..]);
        QuotedReads(args[0], " " + rest, env, r);
        assert quoted + (" " + rest) == Arguments(args) && "" + args[0] == args[0];
        assert (" " + rest)[1..] == rest;
        ArgumentsRead(args[1..], env, more, commands);
        assert more + args[1..] == words + args;
      }
    }
  }

  /** Any arguments without a NUL come back from the shell as they were. */
  lemma ArgumentsRoundTrip(args: seq<string>, env: Environment)
    requires forall i | 0 <= i < |args| :: Printable(args[i])
    ensures Commands(Arguments(args), env) == Some(if args == [] then [] else [args])
  {
    hide Read, Arguments;
    ArgumentsRead(args, env, [], []);
    NoWordsYet(args);
  }

  lemma NoWordsYet(args: seq<string>)
    ensures [] + args == args
    ensures EndCommand(Reader(Blank, "", [] + args, [])).commands == if args == [] then [] else [args]
  {
    var none: seq<seq<string>> := [];
    assert none + [args] == [args];
  }

  /** A text with a NUL is never read as commands. */
  lemma {:induction false} NulStopsReading(s: string, env: Environment, r: Reader)
    requires '\0' in s
    ensures Read(s, env, r).None?
    decreases |s|
  {
    var c, rest := s[0], s[1..];
    assert s == [c] + rest;
    if c != '\0' {
      match r.mode
      case Single =>
        NulStopsReading(rest, env, r.(mode := Word));
        NulStopsReading(rest, env, Append(r, [c]));
      case Double =>
        NulStopsInside(rest, env, r);
        NulStopsReading(rest, env, r.(mode := Word));
        NulStopsReading(rest, env, Append(r, [c]));
      case _ =>
        if c == '\\' {
          if rest[0] != '\0' {
            assert rest == [rest[0]] + rest[1..];
            NulStopsReading(rest[1..], env, r);
            NulStopsReading(rest[1..], env, Append(Begin(r), [rest[0]]));
          }
        } else {
          NulStopsReading(rest, env, EndWord(r));
          NulStopsReading(rest, env, EndCommand(r));
          NulStopsReading(rest, env, Begin(r).(mode := Single));
          NulStopsReading(rest, env, Begin(r).(mode := Double));
          NulStopsReading(rest, env, Append(Begin(r), [c]));
        }
    }
  }

  /** What double quotes may skip over holds no NUL. */
  lemma NulStopsInside(rest: string, env: Environment, r: Reader)
    requires '\0' in rest
    ensures var n := NameLength(rest);
      n > 0 && rest[..n] in env ==> Read(rest[n..], env, Append(r, env[rest[..n]])).None?
    ensures rest[0] != '\0' ==> Read(rest[1..], env, r).None? && Read(rest[1..], env, Append(r, [rest[0]])).None?
    decreases |rest|
  {
    var n := NameLength(rest);
    NamesHaveNoNul(rest);
    assert rest == rest[..n] + rest[n..];
    if n > 0 && rest[..n] in env { NulStopsReading(rest[n..], env, Append(r, env[rest[..n]])); }
    if rest[0] != '\0' {
      assert rest == [rest[0]] + rest[1..];
      NulStopsReading(rest[1..], env, r);
      NulStopsReading(rest[1..], env, Append(r, [rest[0]]));
    }
  }

  lemma {:induction false} NamesHaveNoNul(s: string)
    ensures '\0' !in s[..NameLength(s)]
  {
    if s != [] && NameChar(s[0]) {
      NamesHaveNoNul(s[1..]);
      var n := NameLength(s[1..]);
      assert s[..n + 1] == [s[0]] + s[1..][..n];
    }
  }

  lemma {:induction false} NulStaysPrinted(args: seq<string>, i: nat)
    requires i < |args| && '\0' in args[i]
    ensures '\0' in Arguments(args)
  {
    if i == 0 { NulStaysQuoted(args[0]); } else { NulStaysPrinted(args[1..], i - 1); }
  }

  lemma {:induction false} NulStaysQuoted(value: string)
    requires '\0' in value
    ensures '\0' in ReplaceAll(value, '\'', "'\"'\"'")
  {
    assert value == [value[0]] + value[1..];
    if value[0] != '\0' { NulStaysQuoted(value[1..]); }
  }

  /** Printed arguments come back as they were exactly when none holds a NUL. */
  lemma ArgumentsRoundTripIff(args: seq<string>, env: Environment)
    ensures Commands(Arguments(args), env) == Some(if args == [] then [] else [args])
        <==> forall i | 0 <= i < |args| :: Printable(args[i])
  {
    hide Read, Arguments;
    if i :| 0 <= i < |args| && !Printable(args[i]) {
      NulStaysPrinted(args, i);
      NulStopsReading(Arguments(args), env, START);
    } else {
      ArgumentsRoundTrip(args, env);
    }
  }

  // ----- Plain words before the arguments -----

  predicate PlainChar(c: char) {
    !IsBlank(c) && !Special(c) && c !in {'\0', '\n', '\'', '"', '\\'}
  }

  lemma {:induction false} PlainReads(plain: string, rest: string, env: Environment, r: Reader)
    requires r.mode == Word && forall c | c in plain :: PlainChar(c)
    ensures Read(plain + rest, env, r) == Read(rest, env, Append(r, plain))
  {
    if plain == "" {
      assert plain + rest == rest && r.word + plain == r.word;
    } else {
      assert (plain + rest)[1..] == plain[1..] + rest;
      assert plain[0] in plain && forall c | c in plain[1..] :: c in plain;
      PlainReads(plain[1..], rest, env, Append(r, [plain[0]]));
      assert r.word + [plain[0]] + plain[1..] == r.word + plain;
    }
  }

  /** A plain word at the start of a command. */
  lemma PlainWordReads(plain: string, rest: string, env: Environment, r: Reader)
    requires plain != "" && r.mode == Blank && forall c | c in plain :: PlainChar(c)
    ensures Read(plain + rest, env, r) == Read(rest, env, r.(mode := Word, word := plain))
  {
    assert (plain + rest)[1..] == plain[1..] + rest;
    assert plain[0] in plain && forall c | c in plain[1..] :: c in plain;
    PlainReads(plain[1..], rest, env, Append(Begin(r), [plain[0]]));
    assert "" + [plain[0]] + plain[1..] == plain;
  }

  /** A program name and its printed arguments. */
  lemma CommandLineReads(program: string, args: seq<string>, env: Environment, commands: seq<seq<string>>)
    requires program != "" && (forall c | c in program :: PlainChar(c))
    requires forall i | 0 <= i < |args| :: Printable(args[i])
    ensures Read(program + " " + Arguments(args), env, Reader(Blank, "", [], commands))
        == Some(commands + [[program] + args])
  {
    hide Read, Arguments;
    var rest := Arguments(args);
    assert program + " " + rest == program + (" " + rest);
    PlainWordReads(program, " " + rest, env, Reader(Blank, "", [], commands));
    SpaceReads(rest, env, Reader(Word, program, [], commands));
    assert [] + [program] == [program];
    ArgumentsRead(args, env, [program], commands);
  }

  // ----- The retry wrapper -----

  const RETRY_VARIABLE := "__genie_ci_retry_script"

  /** Runs a command through the retry script; the second form names the script in a variable first. */
  function WithGcRaceRetry(command: string, title: string, scriptPath: string, usesDefault: bool): string {
    if usesDefault then
      "bash" + " " + Arguments([scriptPath, title, command])
    else
      RETRY_VARIABLE + "=" + ShellSingleQuote(scriptPath) + "\n" + SecondLine(title, command)
  }

  function SecondLine(title: string, command: string): string {
    "bash \"$" + RETRY_VARIABLE + "\" " + Arguments([title, command])
  }

  lemma BashIsPlain()
    ensures "bash" != "" && forall c | c in "bash" :: PlainChar(c)
  {
  }

  /** The wrapper passes script, label and command on exactly; a command of printed arguments reads back in turn. */
  lemma DefaultRetryReads(args: seq<string>, title: string, scriptPath: string, env: Environment)
    requires Printable(title) && Printable(scriptPath) && forall i | 0 <= i < |args| :: Printable(args[i])
    ensures var command := Arguments(args);
      && Commands(WithGcRaceRetry(command, title, scriptPath, true), env)
         == Some([["bash", scriptPath, title, command]])
      && Commands(command, env) == Some(if args == [] then [] else [args])
  {
    hide Read, Arguments, PlainChar;
    var command := Arguments(args);
    ArgumentsPrintable(args);
    BashIsPlain();
    ArgumentsRoundTrip(args, env);
    ThreeReads(scriptPath, title, command, env);
  }

  lemma ThreeReads(a: string, b: string, c: string, env: Environment)
    requires Printable(a) && Printable(b) && Printable(c)
    ensures Commands("bash" + " " + Arguments([a, b, c]), env) == Some([["bash", a, b, c]])
  {
    hide Read, Arguments, PlainChar, Printable;
    BashIsPlain();
    CommandLineReads("bash", [a, b, c], env, []);
    assert ["bash"] + [a, b, c] == ["bash", a, b, c];
    var none: seq<seq<string>> := [];
    assert none + [["bash", a, b, c]] == [["bash", a, b, c]];
  }

  lemma {:induction false} EscapedPrintable(value: string)
    requires Printable(value)
    ensures Printable(ReplaceAll(value, '\'', "'\"'\"'"))
  {
    if value != "" {
      assert value[0] in value && forall c | c in value[1..] :: c in value;
      EscapedPrintable(value[1..]);
    }
  }

  lemma {:induction false} ArgumentsPrintable(args: seq<string>)
    requires forall i | 0 <= i < |args| :: Printable(args[i])
    ensures Printable(Arguments(args))
  {
    if args != [] {
      EscapedPrintable(args[0]);
      ArgumentsPrintable(args[1..]);
    }
  }

  lemma VariableIsPlain()
    ensures forall c | c in RETRY_VARIABLE + "=" :: PlainChar(c)
    ensures NameStart(RETRY_VARIABLE[0])
  {
  }

  lemma {:induction false} NameEnds(name: string, rest: string)
    requires (forall c | c in name :: NameChar(c)) && (rest != "" ==> !NameChar(rest[0]))
    ensures NameLength(name + rest) == |name|
  {
    if name == "" {
      assert name + rest == rest;
    } else {
      assert (name + rest)[1..] == name[1..] + rest;
      assert name[0] in name && forall c | c in name[1..] :: c in name;
      NameEnds(name[1..], rest);
    }
  }

  /** A variable in double quotes reads as its value, whatever the value holds. */
  lemma VariableReads(name: string, rest: string, env: Environment, r: Reader)
    requires name != "" && NameStart(name[0]) && (forall c | c in name :: NameChar(c)) && name in env && r.mode == Blank
    ensures Read("\"$" + name + "\"" + rest, env, r) == Read(rest, env, r.(mode := Word, word := env[name]))
  {
    var s := "\"$" + name + "\"" + rest;
    var after := "\"" + rest;
    assert s == "\"" + ("$" + (name + after)) && s[1..] == "$" + (name + after) && s[1..][1..] == name + after;
    NameEnds(name, after);
    assert Read(s, env, r) == Read("$" + (name + after), env, Begin(r).(mode := Double));
    assert (name + after)[0] == name[0];
    assert (name + after)[..|name|] == name && (name + after)[|name|..] == after;
    assert after[1..] == rest;
    assert "" + env[name] == env[name];
    var inside := Begin(r).(mode := Double);
    assert Read("$" + (name + after), env, inside) == Read(after, env, Append(inside, env[name]));
    assert Read(after, env, Append(inside, env[name])) == Read(rest, env, Append(inside, env[name]).(mode := Word));
  }

  /** A line that is one assignment: a name and an equals sign outside quotes, and the value. */
  ghost predicate Assigns(line: string, name: string, value: string) {
    && name != "" && NameStart(name[0]) && (forall c | c in name :: NameChar(c)) && name + "=" <= line
    && forall env :: Commands(line, env) == Some([[name + "=" + value]])
  }

  /** The newline after the line ends it, so that it is performed before the rest is read. */
  ghost predicate EndsAtNewline(line: string, word: string) {
    forall env, rest :: Read(line + "\n" + rest, env, START) == Read(rest, env, Reader(Blank, "", [], [[word]]))
  }

  /**
   * The two-line form: the first line assigns the script to the variable; the second, read with that assignment in
   * effect, runs the script with label and command, and a command of printed arguments reads back in turn.
   */
  lemma PreparedRetryReads(args: seq<string>, title: string, scriptPath: string, env: Environment)
    requires Printable(title) && Printable(scriptPath) && forall i | 0 <= i < |args| :: Printable(args[i])
    ensures var command, first := Arguments(args), RETRY_VARIABLE + "=" + ShellSingleQuote(scriptPath);
      && WithGcRaceRetry(command, title, scriptPath, false) == first + "\n" + SecondLine(title, command)
      && Assigns(first, RETRY_VARIABLE, scriptPath) && EndsAtNewline(first, RETRY_VARIABLE + "=" + scriptPath)
      && Commands(SecondLine(title, command), env[RETRY_VARIABLE := scriptPath])
         == Some([["bash", scriptPath, title, command]])
      && Commands(command, env) == Some(if args == [] then [] else [args])
  {
    hide Read, Arguments, PlainChar, Printable, ShellSingleQuote, SecondLine, Assigns, EndsAtNewline;
    var command := Arguments(args);
    ArgumentsPrintable(args);
    ArgumentsRoundTrip(args, env);
    FirstLineAssigns(scriptPath);
    SecondLineReads(title, command, env[RETRY_VARIABLE := scriptPath], []);
    OnlyCommand(["bash", scriptPath, title, command]);
  }

  lemma OnlyCommand(command: seq<string>)
    ensures [] + [command] == [command]
  {
  }

  lemma FirstLineAssigns(scriptPath: string)
    requires Printable(scriptPath)
    ensures var first := RETRY_VARIABLE + "=" + ShellSingleQuote(scriptPath);
      Assigns(first, RETRY_VARIABLE, scriptPath) && EndsAtNewline(first, RETRY_VARIABLE + "=" + scriptPath)
  {
    hide Read, Commands, PlainChar, Printable, ShellSingleQuote, NameStart, NameChar;
    VariableIsPlain();
    NameIsName();
    assert RETRY_VARIABLE + "=" <= RETRY_VARIABLE + "=" + ShellSingleQuote(scriptPath);
    forall env { FirstLineAlone(scriptPath, env); }
    forall env, rest { FirstLineReads(scriptPath, rest, env); }
  }

  lemma FirstLineAlone(scriptPath: string, env: Environment)
    requires Printable(scriptPath)
    ensures Commands(RETRY_VARIABLE + "=" + ShellSingleQuote(scriptPath), env)
         == Some([[RETRY_VARIABLE + "=" + scriptPath]])
  {
    hide PlainChar, Printable, ShellSingleQuote;
    VariableIsPlain();
    var first, quoted := RETRY_VARIABLE + "=", ShellSingleQuote(scriptPath);
    PlainWordReads(first, quoted, env, START);
    var r := START.(mode := Word, word := first);
    QuotedReads(scriptPath, "", env, r);
    assert quoted + "" == quoted;
    var done := Append(r, scriptPath);
    var none: seq<seq<string>> := [];
    assert [] + [done.word] == [done.word] && none + [[done.word]] == [[done.word]];
    assert EndCommand(done).commands == [[done.word]];
  }

  lemma FirstLineReads(scriptPath: string, second: string, env: Environment)
    requires Printable(scriptPath)
    ensures Read(RETRY_VARIABLE + "=" + ShellSingleQuote(scriptPath) + "\n" + second, env, START)
         == Read(second, env, Reader(Blank, "", [], [[RETRY_VARIABLE + "=" + scriptPath]]))
  {
    hide Read, PlainChar, Printable, ShellSingleQuote;
    VariableIsPlain();
    var first, quoted := RETRY_VARIABLE + "=", ShellSingleQuote(scriptPath);
    Joined(first, quoted, "\n", second);
    PlainWordReads(first, quoted + ("\n" + second), env, START);
    var r := START.(mode := Word, word := first);
    QuotedReads(scriptPath, "\n" + second, env, r);
    NewlineReads(second, env, Append(r, scriptPath));
    var none: seq<seq<string>> := [];
    assert none + [[first + scriptPath]] == [[first + scriptPath]];
  }

  lemma Joined(a: string, b: string, c: string, d: string)
    ensures a + b + c + d == a + (b + (c + d))
  {
  }

  lemma NewlineReads(rest: string, env: Environment, r: Reader)
    requires r.mode == Word && r.words == []
    ensures Read("\n" + rest, env, r) == Read(rest, env, Reader(Blank, "", [], r.commands + [[r.word]]))
  {
    assert ("\n" + rest)[1..] == rest;
    assert [] + [r.word] == [r.word];
  }

  lemma SpaceReads(rest: string, env: Environment, r: Reader)
    requires r.mode == Word
    ensures Read(" " + rest, env, r) == Read(rest, env, Reader(Blank, "", r.words + [r.word], r.commands))
  {
    assert (" " + rest)[1..] == rest;
  }

  lemma SecondLineReads(title: string, command: string, env: Environment, commands: seq<seq<string>>)
    requires Printable(title) && Printable(command) && RETRY_VARIABLE in env
    ensures Read(SecondLine(title, command), env, Reader(Blank, "", [], commands))
         == Some(commands + [["bash", env[RETRY_VARIABLE], title, command]])
  {
    hide Read;
    BashIsPlain();
    VariableIsPlain();
    NameIsName();
    var printed := Arguments([title, command]);
    var quoted := "\"$" + RETRY_VARIABLE + "\"" + (" " + printed);
    assert "bash \"$" + RETRY_VARIABLE + "\" " + printed == "bash" + (" " + quoted);
    PlainWordReads("bash", " " + quoted, env, Reader(Blank, "", [], commands));
    SpaceReads(quoted, env, Reader(Word, "bash", [], commands));
    var r := Reader(Blank, "", ["bash"], commands);
    assert [] + ["bash"] == ["bash"];
    VariableReads(RETRY_VARIABLE, " " + printed, env, r);
    SpaceReads(printed, env, r.(mode := Word, word := env[RETRY_VARIABLE]));
    ArgumentsRead([title, command], env, ["bash", env[RETRY_VARIABLE]], commands);
    assert ["bash"] + [env[RETRY_VARIABLE]] == ["bash", env[RETRY_VARIABLE]];
    assert ["bash", env[RETRY_VARIABLE]] + [title, command] == ["bash", env[RETRY_VARIABLE], title, command];
  }

  lemma NameIsName()
    ensures forall c | c in RETRY_VARIABLE :: NameChar(c)
  {
  }
}
