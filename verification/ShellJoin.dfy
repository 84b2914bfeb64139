/** A profile's arguments as a line to paste into a shell (`shell_join` in
    crates/client/src/launcher.rs), read back by the quoting and token rules of sections 2.2
    and 2.3 of the POSIX.1-2017 Shell Command Language. */
module ShellJoin {
  import opened Options

  /** The Unicode White_Space property. */
  predicate IsWhitespace(c: char) {
    || '\U{9}' <= c <= '\U{D}'
    || c in "\U{20}\U{85}\U{A0}\U{1680}\U{2028}\U{2029}\U{202F}\U{205F}\U{3000}"
    || '\U{2000}' <= c <= '\U{200A}'
  }

  const QUOTED: string := "'\"$\\`*?[]&|;<>()#~!"

  predicate NeedsQuoting(arg: string) {
    arg == [] || exists c :: c in arg && (IsWhitespace(c) || c in QUOTED)
  }

  /** Every single quote closed, escaped and opened again. */
  function Escape(arg: string): string {
    if arg == [] then []
    else (if arg[0] == '\'' then "'\\''" else [arg[0]]) + Escape(arg[1..])
  }

  function Quote(arg: string): string {
    if NeedsQuoting(arg) then "'" + Escape(arg) + "'" else arg
  }

  function ShellJoin(args: seq<string>): string {
    if args == [] then []
    else if |args| == 1 then Quote(args[0])
    else Quote(args[0]) + " " + ShellJoin(args[1..])
  }

  /** What user names, hosts, paths, ports and options are made of. */
  predicate IsCommon(c: char) {
    'a' <= c <= 'z' || 'A' <= c <= 'Z' || '0' <= c <= '9' || c in "-_./:=,@%+"
  }

  /** An argument of nothing else is shown as it is, and a line of them with a space between. */
  lemma CommonStaysBare(args: seq<string>)
    requires forall i :: 0 <= i < |args| ==> args[i] != [] && forall c :: c in args[i] ==> IsCommon(c)
    ensures forall i :: 0 <= i < |args| ==> Quote(args[i]) == args[i]
    ensures |args| > 1 ==> ShellJoin(args) == args[0] + " " + ShellJoin(args[1..])
    ensures |args| == 1 ==> ShellJoin(args) == args[0]
  {
    forall i | 0 <= i < |args| ensures Quote(args[i]) == args[i] {
      CommonNeedsNoQuoting(args[i]);
    }
  }

  lemma CommonNeedsNoQuoting(arg: string)
    requires arg != [] && forall c :: c in arg ==> IsCommon(c)
    ensures !NeedsQuoting(arg)
  {
    forall c | c in arg ensures !IsWhitespace(c) && c !in QUOTED {
      assert IsCommon(c);
    }
  }

  // --- the shell's side -----------------------------------------------------------------

  datatype Mode = Bare | Single | Double

  /** Unquoted, these end the word, or start an expansion or a pattern: more than quoting is
      needed to say what becomes of them. */
  predicate Active(c: char) { c in "|&;<>()$`*?[\n" }

  function Text(word: Option<string>): string { if word.Some? then word.value else [] }

  function Push(word: Option<string>, c: char): Option<string> { Some(Text(word) + [c]) }

  function Cons(word: Option<string>, rest: Option<seq<string>>): Option<seq<string>> {
    if word.Some? && rest.Some? then Some([word.value] + rest.value) else rest
  }

  /** The words of `s` with quoting removed, `word` being the one begun; nothing when a quote is
      left open or something unquoted asks for more than quoting. `blank` is what the locale
      separates words with. */
  function Words(s: string, mode: Mode, word: Option<string>, blank: char -> bool): Option<seq<string>>
    decreases |s|
  {
    if s == [] then (if mode.Bare? then Cons(word, Some([])) else None)
    else
      var c, rest := s[0], s[1..];
      match mode
      case Bare =>
        if c == '\'' then Words(rest, Single, Some(Text(word)), blank)
        else if c == '"' then Words(rest, Double, Some(Text(word)), blank)
        else if c == '\\' then
          if rest == [] then None
          else if rest[0] == '\n' then Words(rest[1..], Bare, word, blank)
          else Words(rest[1..], Bare, Push(word, rest[0]), blank)
        else if Active(c) || (word.None? && (c == '#' || c == '~')) then None
        else if blank(c) then Cons(word, Words(rest, Bare, None, blank))
        else Words(rest, Bare, Push(word, c), blank)
      case Single =>
        if c == '\'' then Words(rest, Bare, word, blank)
        else Words(rest, Single, Push(word, c), blank)
      case Double =>
        if c == '"' then Words(rest, Bare, word, blank)
        else if c == '$' || c == '`' then None
        else if c == '\\' && rest != [] && rest[0] == '\n' then Words(rest[1..], Double, word, blank)
        else if c == '\\' && rest != [] && rest[0] in "$`\"\\" then Words(rest[1..], Double, Push(word, rest[0]), blank)
        else Words(rest, Double, Push(word, c), blank)
  }

  /** A locale separates words at spaces, and only at white space. */
  ghost predicate Separates(blank: char -> bool) {
    blank(' ') && forall c :: blank(c) ==> IsWhitespace(c)
  }

  // --- one step of the shell --------------------------------------------------------------

  lemma AtEnd(s: string, word: Option<string>, blank: char -> bool)
    requires s == []
    ensures Words(s, Bare, word, blank) == Some(if word.Some? then [word.value] else [])
  {
    if word.Some? {
      assert [word.value] + [] == [word.value];
    }
  }

  lemma Opens(s: string, rest: string, word: Option<string>, blank: char -> bool)
    requires s == ['\''] + rest
    ensures Words(s, Bare, word, blank) == Words(rest, Single, Some(Text(word)), blank)
  {
  }

  lemma Closes(s: string, rest: string, word: Option<string>, blank: char -> bool)
    requires s == ['\''] + rest
    ensures Words(s, Single, word, blank) == Words(rest, Bare, word, blank)
  {
  }

  lemma Within(s: string, c: char, rest: string, word: Option<string>, blank: char -> bool)
    requires s == [c] + rest && c != '\''
    ensures Words(s, Single, word, blank) == Words(rest, Single, Push(word, c), blank)
  {
  }

  lemma Escapes(s: string, rest: string, word: Option<string>, blank: char -> bool)
    requires s == ['\\', '\''] + rest
    ensures Words(s, Bare, word, blank) == Words(rest, Bare, Push(word, '\''), blank)
  {
  }

  lemma Separated(s: string, rest: string, word: Option<string>, blank: char -> bool)
    requires s == [' '] + rest && blank(' ')
    ensures Words(s, Bare, word, blank) == Cons(word, Words(rest, Bare, None, blank))
  {
  }

  lemma Plain(s: string, c: char, rest: string, word: Option<string>, blank: char -> bool)
    requires s == [c] + rest && !blank(c) && !IsWhitespace(c) && c !in QUOTED
    ensures Words(s, Bare, word, blank) == Words(rest, Bare, Push(word, c), blank)
  {
  }

  // --- the round trip -------------------------------------------------------------------

  lemma PushThenAll(word: Option<string>, arg: string)
    requires arg != []
    ensures Text(Push(word, arg[0])) + arg[1..] == Text(word) + arg
  {
  }

  /** The shell reads an escaped argument back inside single quotes. */
  lemma {:induction false} EscapeReadsBack(arg: string, tail: string, word: Option<string>, blank: char -> bool)
    requires word.Some?
    ensures Words(Escape(arg) + "'" + tail, Single, word, blank) == Words(tail, Bare, Some(Text(word) + arg), blank)
    decreases |arg|
  {
    var s := Escape(arg) + "'" + tail;
    if arg == [] {
      Closes(s, tail, word, blank);
      assert Text(word) + arg == Text(word);
    } else {
      var c, after := arg[0], Escape(arg[1..]) + "'" + tail;
      EscapeReadsBack(arg[1..], tail, Push(word, c), blank);
      PushThenAll(word, arg);
      if c == '\'' {
        assert s == "'\\''" + after;
        EscapedQuote(s, after, word, blank);
      } else {
        assert s == [c] + after;
        Within(s, c, after, word, blank);
      }
    }
  }

  /** Closing, an escaped quote, opening again: one quote more. */
  lemma EscapedQuote(s: string, after: string, word: Option<string>, blank: char -> bool)
    requires word.Some? && s == "'\\''" + after
    ensures Words(s, Single, word, blank) == Words(after, Single, Push(word, '\''), blank)
  {
    Closes(s, s[1..], word, blank);
    Escapes(s[1..], s[3..], word, blank);
    Opens(s[3..], after, Push(word, '\''), blank);
  }

  /** An argument that needs no quoting is read as it stands. */
  lemma {:induction false} PlainReadsBack(arg: string, tail: string, word: Option<string>, blank: char -> bool)
    requires Separates(blank)
    requires forall c :: c in arg ==> !IsWhitespace(c) && c !in QUOTED
    requires word.Some? || arg != []
    ensures Words(arg + tail, Bare, word, blank) == Words(tail, Bare, Some(Text(word) + arg), blank)
    decreases |arg|
  {
    if arg == [] {
      assert arg + tail == tail && Text(word) + arg == Text(word);
    } else {
      var c := arg[0];
      assert c in arg && arg + tail == [c] + (arg[1..] + tail);
      Plain(arg + tail, c, arg[1..] + tail, word, blank);
      PlainReadsBack(arg[1..], tail, Push(word, c), blank);
      PushThenAll(word, arg);
    }
  }

  lemma QuotedReadsBack(s: string, arg: string, tail: string, blank: char -> bool)
    requires s == ['\''] + (Escape(arg) + "'" + tail)
    ensures Words(s, Bare, None, blank) == Words(tail, Bare, Some(arg), blank)
  {
    var none: Option<string> := None;
    Opens(s, Escape(arg) + "'" + tail, none, blank);
    EscapeReadsBack(arg, tail, Some(Text(none)), blank);
    assert Text(none) + arg == arg;
  }

  lemma QuoteShape(arg: string, tail: string)
    requires NeedsQuoting(arg)
    ensures Quote(arg) + tail == ['\''] + (Escape(arg) + "'" + tail)
  {
  }

  lemma UnquotedReadsBack(arg: string, tail: string, blank: char -> bool)
    requires Separates(blank) && !NeedsQuoting(arg)
    ensures Words(arg + tail, Bare, None, blank) == Words(tail, Bare, Some(arg), blank)
  {
    var none: Option<string> := None;
    PlainReadsBack(arg, tail, none, blank);
    assert Text(none) + arg == arg;
  }

  lemma QuoteReadsBack(arg: string, tail: string, blank: char -> bool)
    requires Separates(blank)
    ensures Words(Quote(arg) + tail, Bare, None, blank) == Words(tail, Bare, Some(arg), blank)
  {
    if NeedsQuoting(arg) {
      QuoteShape(arg, tail);
      QuotedReadsBack(Quote(arg) + tail, arg, tail, blank);
    } else {
      UnquotedReadsBack(arg, tail, blank);
    }
  }

  /** ROUND TRIP: pasted after a command word, the line is exactly the arguments, for every
      list of strings and in every locale that separates words at white space. */
  lemma {:induction false} JoinReadsBack(args: seq<string>, blank: char -> bool)
    requires Separates(blank)
    ensures Words(ShellJoin(args), Bare, None, blank) == Some(args)
    decreases |args|
  {
    if args == [] {
      AtEnd(ShellJoin(args), None, blank);
    } else {
      var tail := if |args| == 1 then [] else " " + ShellJoin(args[1..]);
      assert ShellJoin(args) == Quote(args[0]) + tail;
      QuoteReadsBack(args[0], tail, blank);
      assert args == [args[0]] + args[1..];
      if |args| == 1 {
        AtEnd(tail, Some(args[0]), blank);
      } else {
        JoinReadsBack(args[1..], blank);
        Separated(tail, ShellJoin(args[1..]), Some(args[0]), blank);
      }
    }
  }

  /** So no two lists of arguments share a line. */
  lemma JoinIsInjective(a: seq<string>, b: seq<string>)
    requires ShellJoin(a) == ShellJoin(b)
    ensures a == b
  {
    var blank := (c: char) => c == ' ' || c == '\t';
    JoinReadsBack(a, blank);
    JoinReadsBack(b, blank);
  }
}
