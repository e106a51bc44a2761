/**
 Commands printed for a user to paste into a shell, and the shell's side of the bargain:
 a reader of words after sections 2.2 (quoting) and 2.3 (token recognition) of the Shell
 Command Language of POSIX.1-2017. The reader gives up where the words would not follow from
 the text alone: at operators, expansions, patterns, home directories and assignments.
 */
module ShellQuote {
  import opened Text

  // ----- the printer -----

  const CLI_COMMAND_NAME := "loongclaw"

  /** A single quote cannot be written inside single quotes: close, quote it, reopen. */
  function ReplaceQuotes(value: string): string {
    if value == "" then ""
    else (if value[0] == '\'' then "'\"'\"'" else [value[0]]) + ReplaceQuotes(value[1..])
  }

  function ShellQuoteArgument(value: string): string {
    "'" + ReplaceQuotes(value) + "'"
  }

  function FormatSubcommandWithConfig(subcommand: string, configPath: string): string {
    CLI_COMMAND_NAME + " " + subcommand + " --config " + ShellQuoteArgument(configPath)
  }

  function FormatAskWithConfig(configPath: string, message: string): string {
    CLI_COMMAND_NAME + " ask --config " + ShellQuoteArgument(configPath)
    + " --message " + ShellQuoteArgument(message)
  }

  // ----- the reader -----

  datatype Mode =
    | Between
    | InWord(word: string)
    | Single(word: string)
    | Double(word: string)
    | EscapeBetween
    | EscapeInWord(word: string)
    | EscapeInDouble(word: string)
    | Comment

  datatype Reader = Reading(words: seq<string>, mode: Mode) | GaveUp

  predicate IsBlank(c: char) {
    c == ' ' || c == '\t'
  }

  /** Operators, expansions and patterns, wherever they stand. */
  predicate IsSpecial(c: char) {
    || c == '\n' || c == '|' || c == '&' || c == ';' || c == '<' || c == '>' || c == '(' || c == ')'
    || c == '$' || c == '`' || c == '*' || c == '?' || c == '['
  }

  predicate IsPlain(c: char) {
    !IsBlank(c) && !IsSpecial(c) && c != '\'' && c != '\"' && c != '\\'
  }

  predicate AllPlain(s: string) {
    forall i | 0 <= i < |s| :: IsPlain(s[i])
  }

  /** A word that needs no quotes: at its start only, # is a comment and ~ a home directory. */
  predicate IsPlainWord(s: string) {
    s != "" && AllPlain(s) && s[0] != '#' && s[0] != '~'
  }

  /** A character outside quotes. An equals sign matters in the first word only, where it may assign. */
  function Unquoted(words: seq<string>, mode: Mode, c: char): Reader
    requires mode.Between? || mode.InWord?
  {
    var word := if mode.InWord? then mode.word else "";
    if IsBlank(c) then Reading(if mode.InWord? then words + [word] else words, Between)
    else if c == '\'' then Reading(words, Single(word))
    else if c == '\"' then Reading(words, Double(word))
    else if c == '\\' then Reading(words, if mode.Between? then EscapeBetween else EscapeInWord(word))
    else if IsSpecial(c) then GaveUp
    else if mode.Between? && c == '#' then Reading(words, Comment)
    else if mode.Between? && c == '~' then GaveUp
    else if words == [] && c == '=' then GaveUp
    else Reading(words, InWord(word + [c]))
  }

  function Step(r: Reader, c: char): Reader {
    match r
    case GaveUp => GaveUp
    case Reading(words, mode) =>
      match mode
      case Between => Unquoted(words, mode, c)
      case InWord(_) => Unquoted(words, mode, c)
      case Single(w) => if c == '\'' then Reading(words, InWord(w)) else Reading(words, Single(w + [c]))
      case Double(w) =>
        if c == '\"' then Reading(words, InWord(w))
        else if c == '\\' then Reading(words, EscapeInDouble(w))
        else if c == '$' || c == '`' then GaveUp
        else Reading(words, Double(w + [c]))
      case EscapeBetween => Reading(words, if c == '\n' then Between else InWord([c]))
      case EscapeInWord(w) => Reading(words, InWord(if c == '\n' then w else w + [c]))
      case EscapeInDouble(w) =>
        if c == '\n' then Reading(words, Double(w))
        else if c == '$' || c == '`' || c == '\"' || c == '\\' then Reading(words, Double(w + [c]))
        else Reading(words, Double(w + ['\\', c]))
      case Comment => if c == '\n' then GaveUp else r
  }

  function ReadOn(r: Reader, s: string): Reader
    decreases |s|
  {
    if s == "" then r else ReadOn(Step(r, s[0]), s[1..])
  }

  /** The words at the end of the input, if no quote or escape is left open. */
  function Complete(r: Reader): Option<seq<string>> {
    match r
    case Reading(words, Between) => Some(words)
    case Reading(words, InWord(w)) => Some(words + [w])
    case Reading(words, Comment) => Some(words)
    case _ => None
  }

  /** The words of a command line, if it is literal text with all quotes closed. */
  function Read(s: string): Option<seq<string>> {
    Complete(ReadOn(Reading([], Between), s))
  }

  // ----- reading piece by piece -----

  lemma {:induction false} ReadOnConcat(r: Reader, a: string, b: string)
    ensures ReadOn(r, a + b) == ReadOn(ReadOn(r, a), b)
    decreases |a|
  {
    if a == "" {
      assert a + b == b;
    } else {
      ReadOnConcat(Step(r, a[0]), a[1..], b);
      assert (a + b)[1..] == a[1..] + b;
    }
  }

  lemma ReadOnChar(r: Reader, c: char)
    ensures ReadOn(r, [c]) == Step(r, c)
  {
    assert [c][1..] == "";
  }

  lemma {:induction false} PlainInWord(words: seq<string>, word: string, s: string)
    requires AllPlain(s) && (words == [] ==> '=' !in s)
    ensures ReadOn(Reading(words, InWord(word)), s) == Reading(words, InWord(word + s))
    decreases |s|
  {
    if s == "" {
      assert word + s == word;
    } else {
      PlainInWord(words, word + [s[0]], s[1..]);
      assert word + [s[0]] + s[1..] == word + s;
    }
  }

  lemma ReadsPlainWord(words: seq<string>, s: string)
    requires IsPlainWord(s) && (words == [] ==> '=' !in s)
    ensures ReadOn(Reading(words, Between), s) == Reading(words, InWord(s))
  {
    assert "" + [s[0]] == [s[0]];
    PlainInWord(words, [s[0]], s[1..]);
    assert [s[0]] + s[1..] == s;
  }

  /** Inside single quotes everything but a single quote is itself. */
  lemma {:induction false} InSingleQuotes(words: seq<string>, word: string, s: string)
    requires '\'' !in s
    ensures ReadOn(Reading(words, Single(word)), s) == Reading(words, Single(word + s))
    decreases |s|
  {
    if s == "" {
      assert word + s == word;
    } else {
      InSingleQuotes(words, word + [s[0]], s[1..]);
      assert word + [s[0]] + s[1..] == word + s;
    }
  }

  lemma {:induction false} InDoubleQuotes(words: seq<string>, word: string, s: string)
    requires '\"' !in s && '\\' !in s && '$' !in s && '`' !in s
    ensures ReadOn(Reading(words, Double(word)), s) == Reading(words, Double(word + s))
    decreases |s|
  {
    if s == "" {
      assert word + s == word;
    } else {
      InDoubleQuotes(words, word + [s[0]], s[1..]);
      assert word + [s[0]] + s[1..] == word + s;
    }
  }

  // ----- quoting -----

  lemma ReopenedQuote(words: seq<string>, word: string)
    ensures ReadOn(Reading(words, Single(word)), "'\"'\"'") == Reading(words, Single(word + "'"))
  {
    var s := "'\"'\"'";
    var a := Step(Reading(words, Single(word)), s[0]);
    var b := Step(a, s[1]);
    var c := Step(b, s[2]);
    var d := Step(c, s[3]);
    var e := Step(d, s[4]);
    assert e == Reading(words, Single(word + ['\'']));
    ReadOnConcat(Reading(words, Single(word)), s[..4], s[4..]);
    ReadOnConcat(Reading(words, Single(word)), s[..3], s[3..4]);
    ReadOnConcat(Reading(words, Single(word)), s[..2], s[2..3]);
    ReadOnConcat(Reading(words, Single(word)), s[..1], s[1..2]);
    assert s == s[..4] + s[4..] && s[..4] == s[..3] + s[3..4];
    assert s[..3] == s[..2] + s[2..3] && s[..2] == s[..1] + s[1..2];
    assert s[..1] == [s[0]] && s[1..2] == [s[1]] && s[2..3] == [s[2]] && s[3..4] == [s[3]] && s[4..] == [s[4]];
    ReadOnChar(Reading(words, Single(word)), s[0]);
    ReadOnChar(a, s[1]);
    ReadOnChar(b, s[2]);
    ReadOnChar(c, s[3]);
    ReadOnChar(d, s[4]);
  }

  lemma {:induction false} ReplacedReadsBack(words: seq<string>, word: string, value: string)
    ensures ReadOn(Reading(words, Single(word)), ReplaceQuotes(value)) == Reading(words, Single(word + value))
    decreases |value|
  {
    if value == "" {
      assert word + value == word;
    } else {
      var first, rest := if value[0] == '\'' then "'\"'\"'" else [value[0]], ReplaceQuotes(value[1..]);
      ReadOnConcat(Reading(words, Single(word)), first, rest);
      if value[0] == '\'' {
        ReopenedQuote(words, word);
        assert word + "'" == word + [value[0]];
      } else {
        ReadOnChar(Reading(words, Single(word)), value[0]);
      }
      ReplacedReadsBack(words, word + [value[0]], value[1..]);
      assert word + [value[0]] + value[1..] == word + value;
    }
  }

  /** A quoted argument at the start of a word is read as that word, whatever it contains. */
  lemma QuotedReadsBack(words: seq<string>, value: string)
    ensures ReadOn(Reading(words, Between), ShellQuoteArgument(value)) == Reading(words, InWord(value))
  {
    var start := Reading(words, Between);
    var open := "'" + ReplaceQuotes(value);
    ReadOnConcat(start, open, "'");
    ReadOnConcat(start, "'", ReplaceQuotes(value));
    ReadOnChar(start, '\'');
    ReplacedReadsBack(words, "", value);
    assert "" + value == value;
    ReadOnChar(Reading(words, Single(value)), '\'');
  }

  /** For every string, its quoted form is read as exactly one word, that string. */
  lemma QuoteRoundTrip(value: string)
    ensures Read(ShellQuoteArgument(value)) == Some([value])
  {
    QuotedReadsBack([], value);
    assert [] + [value] == [value];
  }

  // ----- whole commands -----

  /** A plain word and a blank, then the rest. */
  lemma AfterPlain(words: seq<string>, s: string, rest: string)
    requires IsPlainWord(s) && (words == [] ==> '=' !in s)
    ensures ReadOn(Reading(words, Between), s + " " + rest) == ReadOn(Reading(words + [s], Between), rest)
  {
    ReadOnConcat(Reading(words, Between), s + " ", rest);
    ReadOnConcat(Reading(words, Between), s, " ");
    ReadsPlainWord(words, s);
    ReadOnChar(Reading(words, InWord(s)), ' ');
  }

  /** A quoted argument and a blank, then the rest. */
  lemma AfterQuoted(words: seq<string>, value: string, rest: string)
    ensures ReadOn(Reading(words, Between), ShellQuoteArgument(value) + " " + rest)
         == ReadOn(Reading(words + [value], Between), rest)
  {
    var quoted := ShellQuoteArgument(value);
    QuotedReadsBack(words, value);
    hide ShellQuoteArgument;
    ReadOnConcat(Reading(words, Between), quoted + " ", rest);
    ReadOnConcat(Reading(words, Between), quoted, " ");
    ReadOnChar(Reading(words, InWord(value)), ' ');
  }

  /** What follows the subcommand. */
  function ConfigTail(configPath: string): string {
    " --config " + ShellQuoteArgument(configPath)
  }

  /** A flag followed by a quoted value at the end of a command. */
  lemma FlagTail(words: seq<string>, flag: string, value: string)
    requires IsPlainWord(flag) && words != []
    ensures ReadOn(Reading(words, Between), flag + " " + ShellQuoteArgument(value))
         == Reading(words + [flag], InWord(value))
  {
    AfterPlain(words, flag, ShellQuoteArgument(value));
    QuotedReadsBack(words + [flag], value);
  }

  /** The ask command is read as its six words for every path and every message. */
  lemma AskRoundTrip(configPath: string, message: string)
    ensures Read(FormatAskWithConfig(configPath, message))
         == Some([CLI_COMMAND_NAME, "ask", "--config", configPath, "--message", message])
  {
    hide ShellQuoteArgument, ReadOn, IsPlainWord, Step;
    var text := "--message" + " " + ShellQuoteArgument(message);
    var path := ShellQuoteArgument(configPath) + " " + text;
    var config := "--config" + " " + path;
    var ask := "ask" + " " + config;
    assert FormatAskWithConfig(configPath, message) == CLI_COMMAND_NAME + " " + ask;
    LiteralsArePlain();
    AfterPlain([], CLI_COMMAND_NAME, ask);
    assert [] + [CLI_COMMAND_NAME] == [CLI_COMMAND_NAME];
    AfterPlain([CLI_COMMAND_NAME], "ask", config);
    assert [CLI_COMMAND_NAME] + ["ask"] == [CLI_COMMAND_NAME, "ask"];
    AfterPlain([CLI_COMMAND_NAME, "ask"], "--config", path);
    assert [CLI_COMMAND_NAME, "ask"] + ["--config"] == [CLI_COMMAND_NAME, "ask", "--config"];
    AfterQuoted([CLI_COMMAND_NAME, "ask", "--config"], configPath, text);
    var words := [CLI_COMMAND_NAME, "ask", "--config", configPath];
    assert [CLI_COMMAND_NAME, "ask", "--config"] + [configPath] == words;
    FlagTail(words, "--message", message);
    assert words + ["--message"] + [message]
        == [CLI_COMMAND_NAME, "ask", "--config", configPath, "--message", message];
  }

  lemma LiteralsArePlain()
    ensures IsPlainWord(CLI_COMMAND_NAME) && '=' !in CLI_COMMAND_NAME
    ensures IsPlainWord("ask") && IsPlainWord("--config") && IsPlainWord("--message")
  {
    assert AllPlain(CLI_COMMAND_NAME);
    assert AllPlain("--config");
  }

  lemma SubcommandForm(subcommand: string, configPath: string)
    ensures Read(FormatSubcommandWithConfig(subcommand, configPath))
         == Complete(ReadOn(ReadOn(Reading([CLI_COMMAND_NAME], Between), subcommand), ConfigTail(configPath)))
  {
    var tail := ConfigTail(configPath);
    assert FormatSubcommandWithConfig(subcommand, configPath) == CLI_COMMAND_NAME + " " + (subcommand + tail);
    hide ReadOn, IsPlainWord, ConfigTail, FormatSubcommandWithConfig;
    LiteralsArePlain();
    AfterPlain([], CLI_COMMAND_NAME, subcommand + tail);
    assert [] + [CLI_COMMAND_NAME] == [CLI_COMMAND_NAME];
    ReadOnConcat(Reading([CLI_COMMAND_NAME], Between), subcommand, tail);
  }

  lemma TailBetween(words: seq<string>, configPath: string)
    requires words != []
    ensures ReadOn(Reading(words, Between), ConfigTail(configPath)) == Reading(words + ["--config"], InWord(configPath))
  {
    var rest := "--config" + " " + ShellQuoteArgument(configPath);
    FlagTail(words, "--config", configPath);
    hide ShellQuoteArgument;
    assert ConfigTail(configPath) == " " + rest;
    ReadOnConcat(Reading(words, Between), " ", rest);
    ReadOnChar(Reading(words, Between), ' ');
  }

  lemma TailInWord(words: seq<string>, word: string, configPath: string)
    ensures ReadOn(Reading(words, InWord(word)), ConfigTail(configPath))
         == Reading(words + [word, "--config"], InWord(configPath))
  {
    var rest := "--config" + " " + ShellQuoteArgument(configPath);
    FlagTail(words + [word], "--config", configPath);
    hide ShellQuoteArgument;
    assert ConfigTail(configPath) == " " + rest;
    ReadOnConcat(Reading(words, InWord(word)), " ", rest);
    ReadOnChar(Reading(words, InWord(word)), ' ');
    assert words + [word] + ["--config"] == words + [word, "--config"];
  }

  // ----- subcommands of several words -----

  predicate AllPlainWords(words: seq<string>) {
    forall i | 0 <= i < |words| :: IsPlainWord(words[i])
  }

  /** The complete words of a text that only blanks divide, and the word it ends in. */
  function Cut(s: string): (seq<string>, string) {
    if s == "" then ([], "")
    else
      var (words, word) := Cut(s[..|s| - 1]);
      var c := s[|s| - 1];
      if !IsBlank(c) then (words, word + [c]) else if word == "" then (words, "") else (words + [word], "")
  }

  /** The words of a text as blanks divide it. */
  function BlankWords(s: string): seq<string> {
    var (words, word) := Cut(s);
    if word == "" then words else words + [word]
  }

  /** Where the reader stands after the command name and text cut like this. */
  function Clean(words: seq<string>, word: string): Reader {
    Reading([CLI_COMMAND_NAME] + words, if word == "" then Between else InWord(word))
  }

  /** The number of characters other than blanks. */
  function Weight(s: string): nat {
    if s == "" then 0 else Weight(s[..|s| - 1]) + if IsBlank(s[|s| - 1]) then 0 else 1
  }

  function TotalWeight(words: seq<string>): nat {
    if words == [] then 0 else TotalWeight(words[..|words| - 1]) + Weight(words[|words| - 1])
  }

  lemma WeightSnoc(s: string, c: char)
    ensures Weight(s + [c]) == Weight(s) + if IsBlank(c) then 0 else 1
  {
    assert (s + [c])[..|s|] == s;
  }

  lemma TotalWeightSnoc(words: seq<string>, w: string)
    ensures TotalWeight(words + [w]) == TotalWeight(words) + Weight(w)
  {
    assert (words + [w])[..|words|] == words;
  }

  /** The characters other than blanks a reader holds, a backslash it may still keep included. */
  function Held(mode: Mode): nat {
    match mode
    case Between => 0
    case EscapeBetween => 0
    case Comment => 0
    case EscapeInDouble(w) => Weight(w) + 1
    case _ => Weight(mode.word)
  }

  function Kept(r: Reader): nat {
    if r.GaveUp? then 0 else TotalWeight(r.words) + Held(r.mode)
  }

  lemma {:induction false} CutKeepsWeight(s: string)
    ensures var (words, word) := Cut(s); TotalWeight(words) + Weight(word) == Weight(s)
  {
    if s != "" {
      CutKeepsWeight(s[..|s| - 1]);
      var (words, word) := Cut(s[..|s| - 1]);
      WeightSnoc(word, s[|s| - 1]);
      TotalWeightSnoc(words, word);
    }
  }

  /** No step keeps more than it reads. */
  lemma StepKeepsNoMore(r: Reader, c: char)
    ensures Kept(Step(r, c)) <= Kept(r) + if IsBlank(c) then 0 else 1
  {
    if r.Reading? && (r.mode.Between? || r.mode.InWord?) {
      UnquotedKeepsNoMore(r.words, r.mode, c);
    } else if r.Reading? && r.mode.EscapeBetween? {
      WeightSnoc("", c);
      assert "" + [c] == [c];
    } else if r.Reading? && !r.mode.Comment? {
      QuotedKeepsNoMore(r.words, r.mode, c);
    }
  }

  lemma QuotedKeepsNoMore(words: seq<string>, mode: Mode, c: char)
    requires mode.Single? || mode.Double? || mode.EscapeInWord? || mode.EscapeInDouble?
    ensures Kept(Step(Reading(words, mode), c)) <= Kept(Reading(words, mode)) + if IsBlank(c) then 0 else 1
  {
    QuotedHoldsNoMore(words, mode, c);
    hide Step, TotalWeight, Held;
  }

  lemma QuotedHoldsNoMore(words: seq<string>, mode: Mode, c: char)
    requires mode.Single? || mode.Double? || mode.EscapeInWord? || mode.EscapeInDouble?
    ensures var r := Step(Reading(words, mode), c);
            r.Reading? ==> r.words == words && Held(r.mode) <= Held(mode) + if IsBlank(c) then 0 else 1
  {
    hide Unquoted, Weight;
    var w := mode.word;
    WeightSnoc(w, c);
    if mode.EscapeInDouble? {
      WeightSnoc(w, '\\');
      WeightSnoc(w + ['\\'], c);
      assert w + ['\\'] + [c] == w + ['\\', c];
    }
  }

  lemma UnquotedKeepsNoMore(words: seq<string>, mode: Mode, c: char)
    requires mode.Between? || mode.InWord?
    ensures Kept(Unquoted(words, mode, c)) <= Kept(Reading(words, mode)) + if IsBlank(c) then 0 else 1
  {
    var word := if mode.InWord? then mode.word else "";
    WeightSnoc(word, c);
    TotalWeightSnoc(words, word);
  }

  /** Where the reader would stand after one more character if only blanks mattered. */
  function CleanNext(words: seq<string>, word: string, c: char): Reader {
    if !IsBlank(c) then Clean(words, word + [c])
    else if word == "" then Clean(words, "")
    else Clean(words + [word], "")
  }

  predicate Continues(word: string, c: char) {
    IsBlank(c) || (IsPlain(c) && (word == "" ==> c != '#' && c != '~'))
  }

  /** A step from there goes on as blanks divide the text, or something is lost. */
  lemma CleanStep(words: seq<string>, word: string, c: char)
    ensures var r := Step(Clean(words, word), c);
            if Continues(word, c) then r == CleanNext(words, word, c)
            else r.GaveUp? || Kept(r) < Kept(Clean(words, word)) + (if IsBlank(c) then 0 else 1)
  {
    assert [CLI_COMMAND_NAME] + words + [word] == [CLI_COMMAND_NAME] + (words + [word]);
  }

  predicate IsPlainStart(s: string) {
    s == "" || IsPlainWord(s)
  }

  /** Reading `s` after the command name loses something unless `s` consists of plain words. */
  lemma {:induction false} LosesUnlessPlain(s: string)
    ensures var r := ReadOn(Clean([], ""), s);
            var (words, word) := Cut(s);
            || r.GaveUp?
            || Kept(r) < Weight(CLI_COMMAND_NAME) + Weight(s)
            || (r == Clean(words, word) && AllPlainWords(words) && IsPlainStart(word))
    decreases |s|
  {
    if s != "" {
      var front, c := s[..|s| - 1], s[|s| - 1];
      LosesUnlessPlain(front);
      var r := ReadOn(Clean([], ""), front);
      var (words, word) := Cut(front);
      ReadOnSnoc(Clean([], ""), s);
      CleanKeeps(words, word);
      CutKeepsWeight(front);
      StepKeepsNoMore(r, c);
      CleanStep(words, word, c);
      hide ReadOn, Step, Clean, Kept, Weight, TotalWeight, IsPlain, IsPlainWord;
      if IsPlainStart(word) && Continues(word, c) && !IsBlank(c) {
        PlainGrows(word, c);
      }
    }
  }

  lemma ReadOnSnoc(r: Reader, s: string)
    requires s != ""
    ensures ReadOn(r, s) == Step(ReadOn(r, s[..|s| - 1]), s[|s| - 1])
  {
    hide ReadOn, Step;
    var front, c := s[..|s| - 1], s[|s| - 1];
    assert s == front + [c];
    ReadOnConcat(r, front, [c]);
    ReadOnChar(ReadOn(r, front), c);
  }

  lemma {:induction false} TotalWeightCons(w: string, words: seq<string>)
    ensures TotalWeight([w] + words) == Weight(w) + TotalWeight(words)
  {
    if words == [] {
      assert [w] + words == [w] && [w][..0] == [];
    } else {
      TotalWeightCons(w, words[..|words| - 1]);
      assert ([w] + words)[..|words|] == [w] + words[..|words| - 1];
    }
  }

  lemma CleanKeeps(words: seq<string>, word: string)
    ensures Kept(Clean(words, word)) == Weight(CLI_COMMAND_NAME) + TotalWeight(words) + Weight(word)
  {
    hide TotalWeight;
    TotalWeightCons(CLI_COMMAND_NAME, words);
  }

  lemma PlainGrows(word: string, c: char)
    requires IsPlainStart(word) && IsPlain(c) && (word == "" ==> c != '#' && c != '~')
    ensures IsPlainWord(word + [c])
  {}

  // ----- plain words are read back -----

  lemma {:induction false} PlainReadsClean(s: string)
    requires AllPlainWords(Cut(s).0) && IsPlainStart(Cut(s).1)
    ensures ReadOn(Clean([], ""), s) == Clean(Cut(s).0, Cut(s).1)
  {
    if s != "" {
      var front, c := s[..|s| - 1], s[|s| - 1];
      var (words, word) := Cut(front);
      ReadOnSnoc(Clean([], ""), s);
      hide ReadOn;
      if !IsBlank(c) {
        assert (word + [c])[..|word|] == word && (word + [c])[|word|] == c;
        assert forall i | 0 <= i < |word| :: IsPlain((word + [c])[i]);
      } else if word != "" {
        assert (words + [word])[..|words|] == words && IsPlainWord((words + [word])[|words|]);
      }
      assert AllPlainWords(words) && IsPlainStart(word);
      PlainReadsClean(front);
      CleanStep(words, word, c);
    }
  }

  /** A subcommand of plain words is read as these words, between the command name and the path. */
  lemma PlainWordsReadBack(subcommand: string, configPath: string)
    requires AllPlainWords(BlankWords(subcommand))
    ensures Read(FormatSubcommandWithConfig(subcommand, configPath))
         == Some([CLI_COMMAND_NAME] + BlankWords(subcommand) + ["--config", configPath])
  {
    var (words, word) := Cut(subcommand);
    if word != "" {
      assert BlankWords(subcommand)[..|words|] == words && BlankWords(subcommand)[|words|] == word;
    }
    assert AllPlainWords(words) && IsPlainStart(word);
    PlainReadsClean(subcommand);
    var all := [CLI_COMMAND_NAME] + words;
    assert [CLI_COMMAND_NAME] == [CLI_COMMAND_NAME] + [];
    hide ReadOn, ConfigTail, FormatSubcommandWithConfig, Cut, AllPlainWords, IsPlainStart;
    SubcommandForm(subcommand, configPath);
    if word == "" {
      TailBetween(all, configPath);
      assert all + ["--config"] + [configPath] == all + ["--config", configPath];
    } else {
      TailInWord(all, word, configPath);
      assert all + [word, "--config"] + [configPath]
          == [CLI_COMMAND_NAME] + (words + [word]) + ["--config", configPath];
    }
  }

  /** Words with one blank between each two. */
  function Spaced(words: seq<string>): string {
    if words == [] then ""
    else if |words| == 1 then words[0]
    else Spaced(words[..|words| - 1]) + " " + words[|words| - 1]
  }

  lemma {:induction false} CutAppend(s: string, w: string)
    requires forall i | 0 <= i < |w| :: !IsBlank(w[i])
    ensures Cut(s + w) == (Cut(s).0, Cut(s).1 + w)
  {
    if w == "" {
      assert s + w == s && Cut(s).1 + w == Cut(s).1;
    } else {
      var front, c := w[..|w| - 1], w[|w| - 1];
      CutAppend(s, front);
      assert (s + w)[..|s + w| - 1] == s + front;
      assert Cut(s).1 + front + [c] == Cut(s).1 + w;
    }
  }

  lemma {:induction false} CutSpaced(words: seq<string>)
    requires AllPlainWords(words) && words != []
    ensures Cut(Spaced(words)) == (words[..|words| - 1], words[|words| - 1])
  {
    var last := |words| - 1;
    var w := words[last];
    assert IsPlainWord(w);
    if last == 0 {
      CutAppend("", w);
      assert "" + w == w;
    } else {
      var front := words[..last];
      assert forall i | 0 <= i < |front| :: front[i] == words[i];
      CutSpaced(front);
      var s := Spaced(front) + " ";
      assert s[..|s| - 1] == Spaced(front) && s[|s| - 1] == ' ';
      assert front[..|front| - 1] + [front[|front| - 1]] == front;
      assert IsPlainWord(front[|front| - 1]);
      assert Cut(s) == (front, "") && "" + w == w;
      CutAppend(s, w);
      assert Spaced(words) == s + w;
    }
  }

  /** For every list of plain words and every path, the command reads back word for word. */
  lemma SpacedWordsReadBack(words: seq<string>, configPath: string)
    requires AllPlainWords(words)
    ensures Read(FormatSubcommandWithConfig(Spaced(words), configPath))
         == Some([CLI_COMMAND_NAME] + words + ["--config", configPath])
  {
    if words != [] {
      CutSpaced(words);
      assert words[..|words| - 1] + [words[|words| - 1]] == words;
      assert IsPlainWord(words[|words| - 1]);
    }
    hide Cut, Spaced, FormatSubcommandWithConfig, Read;
    PlainWordsReadBack(Spaced(words), configPath);
  }

  // ----- nothing else is -----

  lemma {:induction false} WeightOfSolid(s: string)
    requires forall i | 0 <= i < |s| :: !IsBlank(s[i])
    ensures Weight(s) == |s|
  {
    if s != "" {
      WeightOfSolid(s[..|s| - 1]);
    }
  }

  lemma {:induction false} WeightConcat(a: string, b: string)
    ensures Weight(a + b) == Weight(a) + Weight(b)
  {
    if b == "" {
      assert a + b == a;
    } else {
      WeightConcat(a, b[..|b| - 1]);
      assert (a + b)[..|a + b| - 1] == a + b[..|b| - 1];
    }
  }

  // What follows the subcommand, for an empty path, read where quotes, an escape or a comment are open.

  lemma TailIsLiteral()
    ensures ShellQuoteArgument("") == "''" && ConfigTail("") == " --config ''"
  {
    assert "'" + "" + "'" == "''";
    assert " --config " + "''" == " --config ''";
  }

  lemma EmptyTailInSingle(words: seq<string>, w: string)
    ensures ReadOn(Reading(words, Single(w)), " --config ''") == Reading(words, Single(w + " --config "))
  {
    hide ReadOn;
    var s := " --config ";
    assert s + ("'" + "'") == " --config ''";
    ReadOnConcat(Reading(words, Single(w)), s, "'" + "'");
    InSingleQuotes(words, w, s);
    ReadOnConcat(Reading(words, Single(w + s)), "'", "'");
    ReadOnChar(Reading(words, Single(w + s)), '\'');
    ReadOnChar(Reading(words, InWord(w + s)), '\'');
  }

  lemma EmptyTailEscaped(words: seq<string>, w: string)
    requires words != []
    ensures ReadOn(Reading(words, EscapeInWord(w)), " --config ''") == Reading(words + [w + " --config"], InWord(""))
  {
    hide ReadOn;
    var word := w + " " + "--config";
    assert " " + ("--config" + (" " + "''")) == " --config ''" && word == w + " --config";
    ReadOnConcat(Reading(words, EscapeInWord(w)), " ", "--config" + (" " + "''"));
    ReadOnChar(Reading(words, EscapeInWord(w)), ' ');
    ReadOnConcat(Reading(words, InWord(w + " ")), "--config", " " + "''");
    LiteralsArePlain();
    PlainInWord(words, w + " ", "--config");
    ReadOnConcat(Reading(words, InWord(word)), " ", "''");
    ReadOnChar(Reading(words, InWord(word)), ' ');
    QuotedReadsBack(words + [word], "");
    TailIsLiteral();
  }

  lemma EmptyTailEscapedBetween(words: seq<string>)
    requires words != []
    ensures ReadOn(Reading(words, EscapeBetween), " --config ''") == Reading(words + [" --config"], InWord(""))
  {
    EmptyTailEscaped(words, "");
    assert "" + [' '] == [' '] && "" + " --config" == " --config";
    assert Step(Reading(words, EscapeBetween), ' ') == Step(Reading(words, EscapeInWord("")), ' ');
  }

  lemma EmptyTailEscapedInDouble(words: seq<string>, w: string)
    ensures ReadOn(Reading(words, EscapeInDouble(w)), " --config ''")
         == Reading(words, Double(w + ['\\', ' '] + "--config ''"))
  {
    hide ReadOn;
    assert " " + "--config ''" == " --config ''";
    ReadOnConcat(Reading(words, EscapeInDouble(w)), " ", "--config ''");
    ReadOnChar(Reading(words, EscapeInDouble(w)), ' ');
    InDoubleQuotes(words, w + ['\\', ' '], "--config ''");
  }

  lemma {:induction false} InComment(words: seq<string>, s: string)
    requires '\n' !in s
    ensures ReadOn(Reading(words, Comment), s) == Reading(words, Comment)
  {
    if s != "" {
      InComment(words, s[1..]);
    }
  }

  const FLAG_WEIGHT := 8

  lemma EscapedFlagWeight(words: seq<string>, w: string)
    ensures TotalWeight(words + [w + " --config"] + [""]) == TotalWeight(words) + Weight(w) + FLAG_WEIGHT
  {
    assert w + " --config" == w + [' '] + "--config";
    WeightOfSolid("--config");
    assert Weight("") == 0;
    hide Weight, TotalWeight;
    WeightConcat(w + [' '], "--config");
    WeightSnoc(w, ' ');
    TotalWeightSnoc(words, w + " --config");
    TotalWeightSnoc(words + [w + " --config"], "");
  }

  /** What the tail adds to the words, wherever it is read: at most the flag. */
  lemma TailKeepsNoMore(words: seq<string>, mode: Mode)
    requires words != []
    ensures var r := Complete(ReadOn(Reading(words, mode), ConfigTail("")));
            r.None? || TotalWeight(r.value) <= TotalWeight(words) + Held(mode) + FLAG_WEIGHT
  {
    TailIsLiteral();
    hide ReadOn, ConfigTail;
    WeightOfSolid("--config");
    assert Weight("") == 0;
    hide Weight, TotalWeight, Step;
    match mode {
      case Between =>
        TailBetween(words, "");
        TotalWeightSnoc(words, "--config");
        TotalWeightSnoc(words + ["--config"], "");
      case InWord(w) =>
        TailInWord(words, w, "");
        assert words + [w, "--config"] == words + [w] + ["--config"];
        TotalWeightSnoc(words, w);
        TotalWeightSnoc(words + [w], "--config");
        TotalWeightSnoc(words + [w] + ["--config"], "");
      case Single(w) => EmptyTailInSingle(words, w);
      case Double(w) => InDoubleQuotes(words, w, " --config ''");
      case EscapeInWord(w) =>
        EmptyTailEscaped(words, w);
        EscapedFlagWeight(words, w);
      case EscapeBetween =>
        EmptyTailEscapedBetween(words);
        EscapedFlagWeight(words, "");
        assert "" + " --config" == " --config";
      case EscapeInDouble(w) => EmptyTailEscapedInDouble(words, w);
      case Comment => InComment(words, " --config ''");
    }
  }

  lemma {:induction false} GaveUpForGood(s: string)
    ensures ReadOn(GaveUp, s) == GaveUp
  {
    if s != "" {
      GaveUpForGood(s[1..]);
    }
  }

  lemma {:induction false} WordsOnlyGrow(r: Reader, s: string)
    requires r.Reading? && r.words != []
    ensures ReadOn(r, s).Reading? ==> ReadOn(r, s).words != []
    decreases |s|
  {
    if s != "" {
      var next := Step(r, s[0]);
      if next.Reading? {
        WordsOnlyGrow(next, s[1..]);
      } else {
        GaveUpForGood(s[1..]);
      }
    }
  }

  /** If the words read have all the characters of the command, the subcommand is made of plain words. */
  lemma LosslessIsPlain(subcommand: string, read: seq<string>)
    requires Read(FormatSubcommandWithConfig(subcommand, "")) == Some(read)
    requires TotalWeight(read) == Weight(CLI_COMMAND_NAME) + Weight(subcommand) + FLAG_WEIGHT
    ensures AllPlainWords(BlankWords(subcommand))
  {
    var (words, word) := Cut(subcommand);
    assert Clean([], "") == Reading([CLI_COMMAND_NAME], Between);
    hide Weight, TotalWeight, ReadOn, ConfigTail, FormatSubcommandWithConfig, Step, Cut;
    var r := ReadOn(Clean([], ""), subcommand);
    SubcommandForm(subcommand, "");
    LosesUnlessPlain(subcommand);
    if r.GaveUp? {
      GaveUpForGood(ConfigTail(""));
    } else {
      WordsOnlyGrow(Clean([], ""), subcommand);
      TailKeepsNoMore(r.words, r.mode);
    }
  }

  lemma WeightOfExpected(words: seq<string>)
    ensures TotalWeight([CLI_COMMAND_NAME] + words + ["--config", ""])
         == Weight(CLI_COMMAND_NAME) + TotalWeight(words) + FLAG_WEIGHT
  {
    var all := [CLI_COMMAND_NAME] + words;
    assert all + ["--config", ""] == all + ["--config"] + [""];
    WeightOfSolid("--config");
    assert Weight("") == 0;
    hide Weight, TotalWeight;
    TotalWeightSnoc(all + ["--config"], "");
    TotalWeightSnoc(all, "--config");
    TotalWeightCons(CLI_COMMAND_NAME, words);
  }

  /** A subcommand is read as the words blanks divide it into, with every path, exactly when these are plain. */
  lemma SubcommandReadsAsItsWordsExactlyWhenPlain(subcommand: string)
    ensures (forall path :: Read(FormatSubcommandWithConfig(subcommand, path))
                         == Some([CLI_COMMAND_NAME] + BlankWords(subcommand) + ["--config", path]))
       <==> AllPlainWords(BlankWords(subcommand))
  {
    var words := BlankWords(subcommand);
    WeightOfExpected(words);
    BlankWordsKeepWeight(subcommand);
    hide BlankWords, Weight, TotalWeight, Read, FormatSubcommandWithConfig, AllPlainWords;
    if AllPlainWords(words) {
      forall path ensures Read(FormatSubcommandWithConfig(subcommand, path))
                       == Some([CLI_COMMAND_NAME] + words + ["--config", path])
      {
        PlainWordsReadBack(subcommand, path);
      }
    } else if Read(FormatSubcommandWithConfig(subcommand, "")) == Some([CLI_COMMAND_NAME] + words + ["--config", ""]) {
      LosslessIsPlain(subcommand, [CLI_COMMAND_NAME] + words + ["--config", ""]);
    }
  }

  lemma BlankWordsKeepWeight(s: string)
    ensures TotalWeight(BlankWords(s)) == Weight(s)
  {
    CutKeepsWeight(s);
    var (words, word) := Cut(s);
    assert Weight("") == 0;
    TotalWeightSnoc(words, word);
  }

  /** It is read back as one word, with every path, exactly when it is one plain word. */
  lemma SubcommandRoundTripsExactlyWhenPlain(subcommand: string)
    ensures (forall path :: Read(FormatSubcommandWithConfig(subcommand, path))
                         == Some([CLI_COMMAND_NAME] + [subcommand] + ["--config", path]))
       <==> IsPlainWord(subcommand)
  {
    var one := [subcommand];
    WeightOfExpected(one);
    assert TotalWeight(one) == Weight(subcommand) by { TotalWeightSnoc([], subcommand); assert [] + one == one; }
    if IsPlainWord(subcommand) {
      CutAppend("", subcommand);
      assert "" + subcommand == subcommand && [] + one == one;
      assert BlankWords(subcommand) == one && AllPlainWords(one);
      forall path ensures Read(FormatSubcommandWithConfig(subcommand, path))
                       == Some([CLI_COMMAND_NAME] + one + ["--config", path])
      {
        PlainWordsReadBack(subcommand, path);
      }
    } else if Read(FormatSubcommandWithConfig(subcommand, "")) == Some([CLI_COMMAND_NAME] + one + ["--config", ""]) {
      hide Weight, TotalWeight, Read, FormatSubcommandWithConfig, BlankWords;
      LosslessIsPlain(subcommand, [CLI_COMMAND_NAME] + one + ["--config", ""]);
      PlainWordsReadBack(subcommand, "");
      SameMiddle(one, BlankWords(subcommand));
    }
  }

  lemma SameMiddle(a: seq<string>, b: seq<string>)
    requires [CLI_COMMAND_NAME] + a + ["--config", ""] == [CLI_COMMAND_NAME] + b + ["--config", ""]
    ensures a == b
  {
    var all := [CLI_COMMAND_NAME] + a + ["--config", ""];
    assert all[1..|all| - 2] == a && all[1..|all| - 2] == b;
  }
}
