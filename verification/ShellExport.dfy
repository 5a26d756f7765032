/** config/env/load.py: the exported shell text and the in-process environment update, and an
    evaluator for the part of the POSIX shell language (POSIX.1-2017, Shell Command Language,
    sections 2.2.2, 2.2.3 and 2.14) that the text is written in. */
module ShellExport {
  import opened Messages

  type Env = map<string, string>

  // ---------------------------------------------------------------- what load.py does

  /** value.replace("'", "'\"'\"'") */
  function Escape(value: string): string {
    if value == "" then ""
    else EscapeChar(value[0]) + Escape(value[1..])
  }

  function EscapeChar(c: char): string {
    if c == '\'' then "'\"'\"'" else [c]
  }

  function ShSingle(value: string): string {
    "'" + Escape(value) + "'"
  }

  datatype Command = Export(key: string, value: string) | Unset(key: string)

  function Keyword(c: Command): string {
    if c.Export? then "export" else "unset"
  }

  function Written(c: Command): string {
    match c
    case Export(key, value) => key + "=" + ShSingle(value)
    case Unset(key) => key
  }

  /** export KEY='...' or unset KEY */
  function Line(c: Command): string {
    Keyword(c) + " " + Written(c)
  }

  /** "\n".join(lines) */
  function Joined(lines: seq<string>): string {
    if lines == [] then "" else if |lines| == 1 then lines[0] else lines[0] + "\n" + Joined(lines[1..])
  }

  function Commands(values: seq<(string, string)>, unset: seq<string>): seq<Command> {
    seq(|values|, i requires 0 <= i < |values| => Export(values[i].0, values[i].1))
    + seq(|unset|, i requires 0 <= i < |unset| => Unset(unset[i]))
  }

  function Lines(cs: seq<Command>): seq<string> {
    seq(|cs|, i requires 0 <= i < |cs| => Line(cs[i]))
  }

  /** The items of the dictionary `values` in order, then the names to unset. */
  function ExportShell(values: seq<(string, string)>, unset: seq<string>): string {
    Joined(Lines(Commands(values, unset))) + "\n"
  }

  function Effect(c: Command, env: Env): Env {
    match c
    case Export(key, value) => env[key := value]
    case Unset(key) => env - {key}
  }

  function Effects(cs: seq<Command>, env: Env): Env {
    if cs == [] then env else Effects(cs[1..], Effect(cs[0], env))
  }

  class Process {
    var environ: Env

    constructor (env: Env)
      ensures environ == env
    {
      environ := env;
    }

    /** Raises at the first item that the environment refuses, with the items before it set. */
    method Apply(values: seq<(string, string)>, unset: seq<string>) returns (raised: bool)
      modifies this
      ensures raised == (Settable(values) < |values|)
      ensures environ == if raised then Effects(Commands(values[..Settable(values)], []), old(environ))
                         else Effects(Commands(values, unset), old(environ))
    {
      raised := Update(values);
      if !raised { Pop(values, unset, old(environ)); }
    }

    method Update(values: seq<(string, string)>) returns (raised: bool)
      modifies this
      ensures raised == (Settable(values) < |values|)
      ensures environ == Effects(Commands(values[..Settable(values)], []), old(environ))
    {
      for i := 0 to |values|
        invariant i <= Settable(values) && environ == Effects(Commands(values[..i], []), old(environ))
      {
        SettableAt(values, i);
        if !Accepted(values[i]) { return true; }
        CommandsMore(values[..i], values[i], old(environ));
        assert values[..i + 1] == values[..i] + [values[i]];
        environ := environ[values[i].0 := values[i].1];
      }
      return false;
    }

    method Pop(values: seq<(string, string)>, unset: seq<string>, ghost env: Env)
      requires environ == Effects(Commands(values[..|values|], []), env)
      modifies this
      ensures environ == Effects(Commands(values, unset), env)
    {
      assert values[..|values|] == values;
      for i := 0 to |unset|
        invariant environ == Effects(Commands(values, unset[..i]), env)
      {
        assert unset[..i + 1] == unset[..i] + [unset[i]];
        UnsetMore(values, unset[..i], unset[i], env);
        environ := environ - {unset[i]};
      }
      assert unset[..|unset|] == unset;
    }
  }

  /** os.environ takes any name that is not empty and has no '=', and any text; neither with a NUL. */
  predicate Accepted(kv: (string, string)) {
    kv.0 != "" && '=' !in kv.0 && NulFree(kv.0) && NulFree(kv.1)
  }

  /** How many items at the front are accepted. */
  function Settable(values: seq<(string, string)>): (n: nat)
    ensures n <= |values|
  {
    if values == [] then 0
    else
      var n := Settable(values[..|values| - 1]);
      if n == |values| - 1 && Accepted(values[n]) then n + 1 else n
  }

  lemma {:induction false} SettableAt(values: seq<(string, string)>, i: nat)
    requires i < |values| && i <= Settable(values)
    ensures Accepted(values[i]) <==> i < Settable(values)
  {
    var less := values[..|values| - 1];
    if i < |less| && i <= Settable(less) { SettableAt(less, i); }
  }

  /** Apply raises exactly if some name is empty, has a '=' or a NUL, or some value has a NUL. */
  lemma {:induction false} SettableIff(values: seq<(string, string)>)
    ensures Settable(values) == |values| <==>
              forall kv | kv in values :: kv.0 != "" && '=' !in kv.0 && '\0' !in kv.0 && '\0' !in kv.1
  {
    if values != [] {
      var less, last := values[..|values| - 1], values[|values| - 1];
      assert values == less + [last];
      SettableIff(less);
      if Settable(values) < |values| && Settable(less) == |less| { assert last in values; }
    }
  }

  lemma CommandsMore(values: seq<(string, string)>, kv: (string, string), env: Env)
    ensures Effects(Commands(values + [kv], []), env) == Effects(Commands(values, []), env)[kv.0 := kv.1]
  {
    assert Commands(values + [kv], []) == Commands(values, []) + [Export(kv.0, kv.1)];
    EffectsAppend(Commands(values, []), Export(kv.0, kv.1), env);
  }

  lemma UnsetMore(values: seq<(string, string)>, unset: seq<string>, key: string, env: Env)
    ensures Effects(Commands(values, unset + [key]), env) == Effects(Commands(values, unset), env) - {key}
  {
    assert Commands(values, unset + [key]) == Commands(values, unset) + [Unset(key)];
    EffectsAppend(Commands(values, unset), Unset(key), env);
  }

  /** What a name is bound to afterwards: nothing if unset, else its last value, else as before. */
  function Binding(values: seq<(string, string)>, unset: seq<string>, env: Env, k: string): Option<string> {
    if k in unset then None
    else LastValue(values, if k in env then Some(env[k]) else None, k)
  }

  function LastValue(values: seq<(string, string)>, before: Option<string>, k: string): Option<string> {
    if values == [] then before
    else if values[|values| - 1].0 == k then Some(values[|values| - 1].1)
    else LastValue(values[..|values| - 1], before, k)
  }

  lemma {:induction false} EffectsAppend(cs: seq<Command>, c: Command, env: Env)
    ensures Effects(cs + [c], env) == Effect(c, Effects(cs, env))
  {
    if cs == [] {
      assert cs + [c] == [c];
    } else {
      assert (cs + [c])[1..] == cs[1..] + [c];
      EffectsAppend(cs[1..], c, Effect(cs[0], env));
    }
  }

  /** The update binds every name as Binding says. */
  lemma {:induction false} EffectsBind(values: seq<(string, string)>, unset: seq<string>, env: Env, k: string)
    ensures var e := Effects(Commands(values, unset), env);
            (if k in e then Some(e[k]) else None) == Binding(values, unset, env, k)
    decreases |values| + |unset|
  {
    if unset != [] {
      var less := unset[..|unset| - 1];
      EffectsBind(values, less, env, k);
      UnsetMore(values, less, unset[|unset| - 1], env);
      assert unset == less + [unset[|unset| - 1]];
    } else if values != [] {
      var less, last := values[..|values| - 1], values[|values| - 1];
      EffectsBind(less, [], env, k);
      CommandsMore(less, last, env);
      assert values == less + [last];
    }
  }

  // ---------------------------------------------------------------- reading the text back

  predicate Letter(c: char) {
    'a' <= c <= 'z' || 'A' <= c <= 'Z' || c == '_'
  }

  predicate NameChar(c: char) {
    Letter(c) || '0' <= c <= '9'
  }

  predicate IsName(s: string) {
    s != "" && Letter(s[0]) && forall c | c in s :: NameChar(c)
  }

  predicate NulFree(s: string) {
    '\0' !in s
  }

  predicate Blank(c: char) {
    c == ' ' || c == '\t' || c == '\n'
  }

  /** An unquoted character that stands for itself wherever it occurs. */
  predicate Plain(c: char) {
    NameChar(c) || c in "=.,:/+-@%"
  }

  /** After an opening single quote: the literal text, and what follows the closing quote. */
  function InSingle(s: string): (r: Option<(string, string)>)
    ensures r.Some? ==> |r.value.1| < |s|
  {
    if s == "" || s[0] == '\0' then None
    else if s[0] == '\'' then Some(("", s[1..]))
    else match InSingle(s[1..]) case None => None case Some(r) => Some(([s[0]] + r.0, r.1))
  }

  predicate ActiveInDouble(c: char) {
    c == '$' || c == '`' || c == '\\' || c == '\0'
  }

  /** After an opening double quote; expansions and backslashes are outside this evaluator. */
  function InDouble(s: string): (r: Option<(string, string)>)
    ensures r.Some? ==> |r.value.1| < |s|
  {
    if s == "" || ActiveInDouble(s[0]) then None
    else if s[0] == '"' then Some(("", s[1..]))
    else match InDouble(s[1..]) case None => None case Some(r) => Some(([s[0]] + r.0, r.1))
  }

  /** The word at the start of s, with quotes removed, and the text after it. */
  function ReadWord(s: string): (r: Option<(string, string)>)
    ensures r.Some? ==> |r.value.1| <= |s| && (s != "" && !Blank(s[0]) ==> |r.value.1| < |s|)
    decreases |s|, 0
  {
    if s == "" || Blank(s[0]) then Some(("", s))
    else if s[0] == '\'' then AndRest(InSingle(s[1..]))
    else if s[0] == '"' then AndRest(InDouble(s[1..]))
    else if Plain(s[0]) then AndRest(Some(([s[0]], s[1..])))
    else None
  }

  /** The first part of a word has been read; the rest of the word follows. */
  function AndRest(part: Option<(string, string)>): (r: Option<(string, string)>)
    ensures r.Some? ==> part.Some? && |r.value.1| <= |part.value.1|
    decreases if part.Some? then |part.value.1| else 0, 1
  {
    match part
    case None => None
    case Some(p) =>
      match ReadWord(p.1)
      case None => None
      case Some(w) => Some((p.0 + w.0, w.1))
  }

  /** The words up to the newline or the end of the text. */
  function ReadLine(s: string): (r: Option<(seq<string>, string)>)
    ensures r.Some? ==> |r.value.1| <= |s| && (s != "" ==> |r.value.1| < |s|)
    decreases |s|
  {
    if s == "" then Some(([], ""))
    else if s[0] == '\n' then Some(([], s[1..]))
    else if Blank(s[0]) then ReadLine(s[1..])
    else
      match ReadWord(s)
      case None => None
      case Some(w) =>
        match ReadLine(w.1)
        case None => None
        case Some(r) => Some(([w.0] + r.0, r.1))
  }

  /** A command of name and operands: export NAME=value, unset NAME, or nothing. */
  function Execute(words: seq<string>, env: Env): Option<Env> {
    if words == [] then Some(env)
    else if words[0] == "export" then ExportAll(words[1..], env)
    else if words[0] == "unset" then UnsetAll(words[1..], env)
    else None
  }

  function ExportAll(operands: seq<string>, env: Env): Option<Env> {
    if operands == [] then Some(env)
    else
      var n := NameLength(operands[0]);
      if n == |operands[0]| || operands[0][n] != '=' || !IsName(operands[0][..n]) then None
      else ExportAll(operands[1..], env[operands[0][..n] := operands[0][n + 1..]])
  }

  function UnsetAll(operands: seq<string>, env: Env): Option<Env> {
    if operands == [] then Some(env)
    else if !IsName(operands[0]) then None
    else UnsetAll(operands[1..], env - {operands[0]})
  }

  function NameLength(s: string): (n: nat)
    ensures n <= |s|
  {
    if s == "" || !NameChar(s[0]) then 0 else 1 + NameLength(s[1..])
  }

  /** The environment after the text is evaluated in env. */
  function Eval(s: string, env: Env): Option<Env>
    decreases |s|
  {
    if s == "" then Some(env)
    else
      match ReadLine(s)
      case None => None
      case Some(l) =>
        match Execute(l.0, env)
        case None => None
        case Some(e) => Eval(l.1, e)
  }

  /** What $(...) does to the text. */
  function StripNewlines(s: string): string {
    if s != "" && s[|s| - 1] == '\n' then StripNewlines(s[..|s| - 1]) else s
  }

  // ---------------------------------------------------------------- quoting round trip

  /** Where a word may end: the end of the text or a blank. */
  predicate AtBreak(t: string) {
    t == "" || Blank(t[0])
  }

  lemma QuoteInDoubleQuotes(q: string)
    ensures InDouble("'\"" + q) == Some(("'", q))
  {
    var s, t := "'\"" + q, "\"" + q;
    assert t[0] == '"' && t[1..] == q;
    assert InDouble(t) == Some(("", q));
    assert s[0] == '\'' && s[1..] == t;
    assert ['\''] + "" == "'";
  }

  lemma QuoteInWord(v: string, t: string, again: string)
    requires ReadWord(again) == Some((v, t))
    ensures ReadWord("\"" + ("'\"" + again)) == Some((['\''] + v, t))
  {
    var inner := "'\"" + again;
    QuoteInDoubleQuotes(again);
    var outer := "\"" + inner;
    assert outer[0] == '"' && outer[1..] == inner;
  }

  /** A quote character leaves the single quotes, is read in double quotes, and enters them again. */
  lemma QuoteCharacter(v: string, t: string, rest: string)
    requires AndRest(InSingle(rest)) == Some((v, t))
    ensures AndRest(InSingle("'\"'\"'" + rest)) == Some((['\''] + v, t))
  {
    var again := "'" + rest;
    assert again[0] == '\'' && again[1..] == rest;
    QuoteInWord(v, t, again);
    var s, outer := "'\"'\"'" + rest, "\"" + ("'\"" + again);
    assert s[0] == '\'' && s[1..] == outer;
    assert "" + (['\''] + v) == ['\''] + v;
  }

  lemma CharacterReads(c: char, v: string, t: string, rest: string)
    requires c != '\0' && AndRest(InSingle(rest)) == Some((v, t))
    ensures AndRest(InSingle(EscapeChar(c) + rest)) == Some(([c] + v, t))
  {
    if c == '\'' {
      QuoteCharacter(v, t, rest);
    } else {
      var s, part := [c] + rest, InSingle(rest).value;
      assert s[0] == c && s[1..] == rest;
      var word := ReadWord(part.1).value;
      assert ([c] + part.0) + word.0 == [c] + (part.0 + word.0);
    }
  }

  lemma Regroup(a: string, b: string, c: string, d: string)
    ensures a + b + c + d == a + (b + c + d)
  {
  }

  /** Inside the opening quote, the escaped value reads back as the value. */
  lemma {:induction false} EscapeReads(v: string, t: string)
    requires NulFree(v) && AtBreak(t)
    ensures AndRest(InSingle(Escape(v) + "'" + t)) == Some((v, t))
  {
    if v == "" {
      ClosingQuote(t);
    } else {
      assert v == [v[0]] + v[1..] && v[0] in v;
      EscapeReads(v[1..], t);
      CharacterReads(v[0], v[1..], t, Escape(v[1..]) + "'" + t);
      Regroup(EscapeChar(v[0]), Escape(v[1..]), "'", t);
    }
  }

  lemma ClosingQuote(t: string)
    requires AtBreak(t)
    ensures AndRest(InSingle("" + "'" + t)) == Some(("", t))
  {
    var s := "" + "'" + t;
    assert s[0] == '\'' && s[1..] == t;
    assert "" + "" == "";
  }

  /** Reading the quoted value gives the value back and stops right after it. */
  lemma ShSingleReads(v: string, t: string)
    requires NulFree(v) && AtBreak(t)
    ensures ReadWord(ShSingle(v) + t) == Some((v, t))
  {
    var s := ShSingle(v) + t;
    assert s[0] == '\'' && s[1..] == Escape(v) + "'" + t;
    EscapeReads(v, t);
  }

  lemma PlainReads(s: string)
    requires s != "" && Plain(s[0]) && ReadWord(s[1..]).Some?
    ensures var w := ReadWord(s[1..]).value;
            ReadWord(s) == Some(([s[0]] + w.0, w.1))
  {
  }

  lemma Peel(p: string, s: string)
    requires p != ""
    ensures (p + s)[0] == p[0] && (p + s)[1..] == p[1..] + s && [p[0]] + (p[1..] + s) == p + s
  {
  }

  /** Unquoted plain characters in front of a word belong to it. */
  lemma {:induction false} PlainPrefixReads(p: string, s: string, v: string, t: string)
    requires (forall c | c in p :: Plain(c)) && ReadWord(s) == Some((v, t))
    ensures ReadWord(p + s) == Some((p + v, t))
  {
    if p == "" {
      assert p + s == s && p + v == v;
    } else {
      PlainPrefixReads(p[1..], s, v, t);
      Peel(p, s);
      Peel(p, v);
      PlainReads(p + s);
    }
  }

  // ---------------------------------------------------------------- lines

  predicate ValidCommand(c: Command) {
    IsName(c.key) && (c.Export? ==> NulFree(c.value))
  }

  function Operand(c: Command): string {
    match c
    case Export(key, value) => key + "=" + value
    case Unset(key) => key
  }

  lemma OperandReads(c: Command, t: string)
    requires ValidCommand(c) && AtBreak(t)
    ensures ReadWord(Written(c) + t) == Some((Operand(c), t))
  {
    if c.Export? {
      var prefix := c.key + "=";
      ShSingleReads(c.value, t);
      PlainPrefixReads(prefix, ShSingle(c.value) + t, c.value, t);
      assert c.key + "=" + ShSingle(c.value) + t == prefix + (ShSingle(c.value) + t);
    } else {
      assert ReadWord(t) == Some(("", t));
      PlainPrefixReads(c.key, t, "", t);
      assert c.key + "" == c.key;
    }
  }

  /** A word followed by a blank, then by words already read. */
  lemma WordThenLine(s: string, word: string, t: string, words: seq<string>, after: string)
    requires s != "" && !Blank(s[0])
    requires ReadWord(s) == Some((word, t)) && ReadLine(t) == Some((words, after))
    ensures ReadLine(s) == Some(([word] + words, after))
  {
  }

  lemma KeywordReads(c: Command, s: string)
    ensures ReadWord(Keyword(c) + (" " + s)) == Some((Keyword(c), " " + s))
  {
    var spaced := " " + s;
    assert spaced[0] == ' ';
    PlainPrefixReads(Keyword(c), spaced, "", spaced);
    assert Keyword(c) + "" == Keyword(c);
  }

  lemma SpaceSkipped(s: string)
    ensures ReadLine(" " + s) == ReadLine(s)
  {
    var spaced := " " + s;
    assert spaced[0] == ' ' && spaced[1..] == s;
  }

  lemma KeywordStarts(c: Command, s: string)
    ensures Keyword(c) + s != "" && !Blank((Keyword(c) + s)[0])
  {
    var k := Keyword(c);
    assert k[0] == 'e' || k[0] == 'u';
    assert (k + s)[0] == k[0];
  }

  lemma Separated(a: string, b: string, c: string, d: string)
    ensures a + b + c + d == a + (b + (c + d))
  {
  }

  /** A printed line is read as its keyword and its operand, up to where the next line starts. */
  lemma LineReads(c: Command, t: string)
    requires ValidCommand(c) && (t == "" || t[0] == '\n')
    ensures ReadLine(Line(c) + t) == Some(([Keyword(c)] + [Operand(c)], if t == "" then "" else t[1..]))
  {
    var after, s := if t == "" then "" else t[1..], Written(c) + t;
    OperandReads(c, t);
    assert s[0] == c.key[0];
    WordThenLine(s, Operand(c), t, [], after);
    assert [Operand(c)] + [] == [Operand(c)];
    SpaceSkipped(s);
    KeywordReads(c, s);
    KeywordStarts(c, " " + s);
    WordThenLine(Keyword(c) + (" " + s), Keyword(c), " " + s, [Operand(c)], after);
    Separated(Keyword(c), " ", Written(c), t);
  }

  // ---------------------------------------------------------------- executing the lines

  lemma {:induction false} NameEndsAtEquals(key: string, value: string)
    requires forall c | c in key :: NameChar(c)
    ensures NameLength(key + "=" + value) == |key|
  {
    var s := key + "=" + value;
    if key == "" {
      assert s[0] == '=';
    } else {
      NameEndsAtEquals(key[1..], value);
      assert key[0] in key && s[0] == key[0] && s[1..] == key[1..] + "=" + value;
    }
  }

  lemma ExportExecutes(key: string, value: string, env: Env)
    requires IsName(key)
    ensures ExportAll([key + "=" + value], env) == Some(env[key := value])
  {
    NameEndsAtEquals(key, value);
    var o := key + "=" + value;
    assert o[..|key|] == key && o[|key|] == '=' && o[|key| + 1..] == value;
    var os: seq<string> := [o];
    assert os[1..] == [];
    assert ExportAll([], env[key := value]) == Some(env[key := value]);
  }

  lemma LineExecutes(c: Command, env: Env)
    requires ValidCommand(c)
    ensures Execute([Keyword(c)] + [Operand(c)], env) == Some(Effect(c, env))
  {
    var words := [Keyword(c)] + [Operand(c)];
    assert words[1..] == [Operand(c)] && [Operand(c)][1..] == [];
    if c.Export? {
      ExportExecutes(c.key, c.value, env);
    } else {
      assert words[0] == "unset" && "unset"[0] != "export"[0];
      assert UnsetAll([], env - {c.key}) == Some(env - {c.key});
    }
  }

  predicate Tail(t: string) {
    t == "" || t == "\n"
  }

  lemma EvalLine(c: Command, t: string, env: Env)
    requires ValidCommand(c) && (t == "" || t[0] == '\n')
    ensures Eval(Line(c) + t, env) == Eval(if t == "" then "" else t[1..], Effect(c, env))
  {
    LineReads(c, t);
    LineExecutes(c, env);
    assert |Line(c)| > 0;
  }

  /** The lines after the first, with what follows them, stand behind a newline. */
  lemma JoinedMore(cs: seq<Command>, t: string)
    requires |cs| > 1
    ensures Joined(Lines(cs)) + t == Line(cs[0]) + ("\n" + (Joined(Lines(cs[1..])) + t))
  {
    assert Lines(cs)[1..] == Lines(cs[1..]);
    Regroup(Line(cs[0]), "\n", Joined(Lines(cs[1..])), t);
    assert "\n" + Joined(Lines(cs[1..])) + t == "\n" + (Joined(Lines(cs[1..])) + t);
  }

  lemma {:induction false} EvalJoined(cs: seq<Command>, t: string, env: Env)
    requires (forall c | c in cs :: ValidCommand(c)) && Tail(t)
    ensures Eval(Joined(Lines(cs)) + t, env) == Some(Effects(cs, env))
  {
    if cs == [] {
      assert Joined(Lines(cs)) + t == t;
      assert t == "\n" ==> t[1..] == "" && ReadLine(t) == Some(([], ""));
    } else if |cs| == 1 {
      assert cs[0] in cs;
      EvalLine(cs[0], t, env);
      assert t != "" ==> t[1..] == "";
    } else {
      var rest := Joined(Lines(cs[1..])) + t;
      assert cs[0] in cs && ("\n" + rest)[1..] == rest;
      JoinedMore(cs, t);
      EvalLine(cs[0], "\n" + rest, env);
      EvalJoined(cs[1..], t, Effect(cs[0], env));
    }
  }

  /** Not empty, and not ending in a newline. */
  predicate Ended(s: string) {
    s != "" && s[|s| - 1] != '\n'
  }

  lemma LineEnds(c: Command)
    requires ValidCommand(c)
    ensures Ended(Line(c))
  {
    if c.Unset? {
      assert Line(c)[|Line(c)| - 1] == c.key[|c.key| - 1];
      assert c.key[|c.key| - 1] in c.key;
    }
  }

  lemma LinesEnd(cs: seq<Command>)
    requires forall c | c in cs :: ValidCommand(c)
    ensures forall l | l in Lines(cs) :: Ended(l)
  {
    forall l | l in Lines(cs) ensures Ended(l) {
      var i :| 0 <= i < |cs| && Line(cs[i]) == l;
      LineEnds(cs[i]);
    }
  }

  lemma {:induction false} JoinedEnds(lines: seq<string>)
    requires lines != [] && forall l | l in lines :: Ended(l)
    ensures Ended(Joined(lines))
  {
    assert lines[0] in lines;
    if |lines| > 1 {
      JoinedEnds(lines[1..]);
    }
  }

  /** Command substitution takes exactly the final newline away. */
  lemma StrippedIsJoined(cs: seq<Command>)
    requires forall c | c in cs :: ValidCommand(c)
    ensures StripNewlines(Joined(Lines(cs)) + "\n") == Joined(Lines(cs))
  {
    var s := Joined(Lines(cs));
    assert (s + "\n")[..|s|] == s;
    if cs != [] {
      LinesEnd(cs);
      JoinedEnds(Lines(cs));
    }
  }

  lemma {:induction false} EscapePlain(value: string)
    requires '\'' !in value
    ensures Escape(value) == value
  {
    if value != "" {
      assert value == [value[0]] + value[1..];
      EscapePlain(value[1..]);
    }
  }

  lemma TwoLines(a: string, name: string)
    ensures a + "'" + "\n" + ("unset " + name) + "\n" == a + "'\nunset " + name + "\n"
  {
    assert "'" + "\n" + "unset " == "'\nunset ";
  }

  /** The text for one value without quotes and one name to unset. */
  lemma PrintedText(key: string, value: string, name: string)
    requires '\'' !in value
    ensures ExportShell([(key, value)], [name]) == "export " + key + "='" + value + "'\nunset " + name + "\n"
  {
    var cs, a := Commands([(key, value)], [name]), "export " + key + "='" + value;
    assert cs == [Export(key, value), Unset(name)];
    assert Lines(cs) == [Line(Export(key, value)), Line(Unset(name))];
    ExportLine(key, value);
    assert Line(Unset(name)) == "unset " + name;
    JoinedTwo(a + "'", "unset " + name);
    TwoLines(a, name);
  }

  lemma ExportLine(key: string, value: string)
    requires '\'' !in value
    ensures Line(Export(key, value)) == "export " + key + "='" + value + "'"
  {
    EscapePlain(value);
  }

  lemma JoinedTwo(a: string, b: string)
    ensures Joined([a, b]) == a + "\n" + b
  {
    assert [a, b][1..] == [b];
  }

  predicate Exportable(values: seq<(string, string)>, unset: seq<string>) {
    && (forall kv | kv in values :: IsName(kv.0) && NulFree(kv.1))
    && (forall k | k in unset :: IsName(k))
  }

  /** Apply does not raise on what can be exported. */
  lemma {:induction false} ExportableIsSettable(values: seq<(string, string)>, unset: seq<string>)
    requires Exportable(values, unset)
    ensures Settable(values) == |values|
  {
    if values != [] {
      var less, kv := values[..|values| - 1], values[|values| - 1];
      assert forall x | x in less :: x in values;
      ExportableIsSettable(less, unset);
      assert kv in values && !NameChar('=') && !NameChar('\0');
    }
  }

  /** Evaluating the exported text does to any environment what Apply does, with or without the
      final newline that $(...) strips. */
  lemma EvaluatingIsApplying(values: seq<(string, string)>, unset: seq<string>, env: Env)
    requires Exportable(values, unset)
    ensures Eval(ExportShell(values, unset), env) == Some(Effects(Commands(values, unset), env))
    ensures Eval(StripNewlines(ExportShell(values, unset)), env) == Some(Effects(Commands(values, unset), env))
  {
    var cs := Commands(values, unset);
    forall c | c in cs ensures ValidCommand(c) {
      var i :| 0 <= i < |cs| && cs[i] == c;
      if i < |values| {
        assert values[i] in values;
      } else {
        assert unset[i - |values|] in unset;
      }
    }
    EvalJoined(cs, "\n", env);
    EvalJoined(cs, "", env);
    StrippedIsJoined(cs);
    assert Joined(Lines(cs)) + "" == Joined(Lines(cs));
  }
}
