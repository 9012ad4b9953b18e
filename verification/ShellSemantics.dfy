/** A big-step semantics of the shell lists the read parsers judge, after sections 2.3 (token
    recognition), 2.4 (reserved words), 2.9.1 (simple commands), 2.9.2 (pipelines), 2.9.3 (lists)
    and 2.14 (special built-ins) of the POSIX.1-2017 Shell Command Language.

    A file state is threaded through the links. `cat`, `nl`, `sed -n` and `echo` are the standard
    utilities, and what they show is worked out from the contents of the files; any other program
    is an arbitrary function of its text and the files. A link that groups commands, or one of
    whose stages has no literal command word, or a command word that changes the shell itself, may
    do anything at all, ending the shell included. */
module ShellSemantics {
  import opened Text
  import opened ShellSplit
  import opened ReadParser

  // ----- words -----

  predicate IsBlank(c: char) { c == ' ' || c == '\t' }

  /** Unquoted, these are operators, expansions, patterns or groupings. */
  predicate IsSpecial(c: char) {
    || c == '|' || c == '&' || c == ';' || c == '<' || c == '>' || c == '$' || c == '`' || c == '\\' || c == '\n'
    || c == '*' || c == '?' || c == '[' || c == ']' || c == '!' || c == '~' || IsGrouping(c)
  }

  /** A word that starts with one of these unquoted is a comment, or a command's path to zsh. */
  predicate HidesWord(c: char) { c == '#' || c == '=' }

  /** What a backslash escapes inside double quotes, by section 2.2.3. */
  predicate EscapedInDouble(c: char) { c == '$' || c == '`' || c == '"' || c == '\\' || c == '\n' }

  /** Inside double quotes the text starts with an expansion or an escape. */
  predicate ExpandsAt(s: string) {
    s != [] && (s[0] == '$' || s[0] == '`' || (s[0] == '\\' && (|s| == 1 || EscapedInDouble(s[1]))))
  }

  function ConsTo(c: char, r: Option<(string, string)>): Option<(string, string)> {
    match r case None => None case Some((w, rest)) => Some(([c] + w, rest))
  }

  /** One word, quotes removed, and the text after it. `None` when the word is not literal. */
  function LexWord(s: string, q: Option<char>): (r: Option<(string, string)>)
    ensures r.Some? ==> |r.value.0| + |r.value.1| <= |s|
    ensures r.Some? && s != [] && (q.Some? || !IsBlank(s[0])) ==> |r.value.1| < |s|
  {
    if s == [] then (if q.None? then Some(([], [])) else None)
    else match q
    case Some(open) =>
      if s[0] == open then LexWord(s[1..], None)
      else if open == '"' && ExpandsAt(s) then None
      else ConsTo(s[0], LexWord(s[1..], q))
    case None =>
      if IsBlank(s[0]) then Some(([], s))
      else if IsQuote(s[0]) then LexWord(s[1..], Some(s[0]))
      else if IsSpecial(s[0]) then None
      else ConsTo(s[0], LexWord(s[1..], None))
  }

  /** The literal words of a simple command; `None` when a word is not literal. */
  function Lex(s: string): (r: Option<seq<string>>)
    ensures r.Some? ==> forall w :: w in r.value ==> |w| <= |s| && (|r.value| > 1 ==> |w| < |s|)
    decreases |s|
  {
    if s == [] then Some([])
    else if IsBlank(s[0]) then Lex(s[1..])
    else if HidesWord(s[0]) then None
    else match LexWord(s, None)
    case None => None
    case Some((w, rest)) =>
      match Lex(rest) case None => None case Some(ws) => Some([w] + ws)
  }

  // ----- command words -----

  /** The command word of a stage as the shell reads it, quotes removed; `bare` when it had none. */
  datatype Command = Literal(word: string, bare: bool) | Hidden | Missing

  /** A redirection, an expansion, a pattern or a comment where the command word belongs hides it. */
  function CommandOf(stage: string): Command {
    if stage == [] then Missing
    else if IsBlank(stage[0]) then CommandOf(stage[1..])
    else if HidesWord(stage[0]) then Hidden
    else match LexWord(stage, None)
    case None => Hidden
    case Some((w, rest)) => Literal(w, w + rest == stage)
  }

  /** Built-ins of the POSIX shell that end it or change what later commands mean or find. */
  const POSIX_BUILTINS: set<string> := {
    "break", "continue", ".", "eval", "exec", "exit", "export", "readonly", "return", "set", "shift", "trap"}
  const POSIX_INTRINSICS: set<string> := {
    "unset", "alias", "cd", "command", "fc", "getopts", "hash", "kill", "read", "unalias"}

  /** Those that bash, ksh and zsh add. */
  const BASH_BUILTINS: set<string> := {
    "source", "builtin", "declare", "enable", "let", "local", "logout", "mapfile", "popd", "pushd", "readarray"}
  const KSH_BUILTINS: set<string> := {"shopt", "suspend", "typeset", "integer", "float", "chdir", "whence"}
  const ZSH_BUILTINS: set<string> := {
    "bye", "setopt", "unsetopt", "emulate", "disable", "unhash", "rehash", "unfunction", "autoload", "zmodload"}
  /** Words zsh skips to find the command word. */
  const ZSH_MODIFIERS: set<string> := {"noglob", "nocorrect", "-"}

  predicate IsChanger(word: string) {
    || word in POSIX_BUILTINS || word in POSIX_INTRINSICS || word in BASH_BUILTINS
    || word in KSH_BUILTINS || word in ZSH_BUILTINS || word in ZSH_MODIFIERS
  }

  const RESERVED: set<string> := {
    "!", "{", "}", "case", "do", "done", "elif", "else", "esac", "fi", "for", "if"}
  const RESERVED_TOO: set<string> := {
    "then", "until", "while", "[[", "function", "select", "time", "coproc", "foreach", "repeat", "end"}

  predicate IsReserved(word: string) { word in RESERVED || word in RESERVED_TOO }

  predicate IsNameChar(c: char) { 'a' <= c <= 'z' || 'A' <= c <= 'Z' || IsDigit(c) || c == '_' || c == '+' }

  /** `NAME=...`, or `NAME+=...`. */
  predicate Assigns(word: string) {
    var i := IndexOf(word, '=');
    0 < i < |word| && forall c :: c in word[..i] ==> IsNameChar(c)
  }

  /** Quoting hides a reserved word or an assignment from the shell, but not a built-in. */
  predicate CommandChanges(c: Command) {
    match c
    case Literal(word, bare) => IsChanger(word) || (bare && (IsReserved(word) || Assigns(word)))
    case Hidden => true
    case Missing => true
  }

  /** The link may change the shell or end it. Any stage of a pipeline may run in the shell itself,
      as section 2.12 allows and zsh does with the last. */
  predicate MayChange(link: string) {
    || HasGrouping(link, None)
    || exists p :: p in Pieces(["|"], link, None) && CommandChanges(CommandOf(p))
  }

  // ----- the utilities -----

  /** The readable files, by the name the command gives them: their lines. */
  type Files = map<string, seq<string>>

  /** What a link put in front of the model of one file, as it found it: for every line printed, the
      number of the source line on it, or None for an empty line that stands for another. */
  datatype Shown = Shown(path: string, file: seq<string>, lines: seq<Option<nat>>)

  datatype UtilityRun = UtilityRun(status: nat, shown: seq<Shown>)

  /** The lines `cat` prints. */
  function CatLines(n: nat): (out: seq<Option<nat>>)
    ensures |out| == n && forall i :: 0 <= i < n ==> out[i] == Some(i + 1)
  {
    seq(n, i => Some(i + 1))
  }

  /** A logical-page delimiter of `nl`. */
  predicate IsDelimiter(line: string) { line == "\\:\\:\\:" || line == "\\:\\:" || line == "\\:" }

  /** The lines `nl` prints, the first source line being number `first`. For a delimiter GNU prints
      an empty line, others nothing. */
  function NlLines(file: seq<string>, first: nat, blanks: bool): seq<Option<nat>> {
    if file == [] then []
    else NlOne(file[0], first, blanks) + NlLines(file[1..], first + 1, blanks)
  }

  function NlOne(line: string, no: nat, blanks: bool): seq<Option<nat>> {
    if !IsDelimiter(line) then [Some(no)] else if blanks then [None] else []
  }

  /** How many lines a window skips, and where it stops, among `n` lines. */
  function Skips(r: LineRange, n: nat): (k: nat)
    ensures k <= n
  {
    if r.start == 0 then 0 else if r.start - 1 <= n then r.start - 1 else n
  }

  function Stops(r: LineRange, n: nat): (k: nat)
    ensures Skips(r, n) <= k <= n
  {
    var e := if r.end.Some? && r.end.value <= n then r.end.value else n;
    if e < Skips(r, n) then Skips(r, n) else e
  }

  /** The lines `sed -n` prints of its input. */
  function WindowOf<T>(lines: seq<T>, r: LineRange): seq<T> { lines[Skips(r, |lines|)..Stops(r, |lines|)] }

  datatype SedMeaning = Prints(window: LineRange) | Invalid | Unmodelled

  /** The meaning of a `sed -n` script that is one address or two and `p`. A number addresses a
      line, `$` the last, and `+N` as a second address the Nth line after the first (GNU sed);
      `+` cannot start a script. A second address before the first selects one line. */
  function SedMeaningOf(script: string): SedMeaning {
    if script == [] || script[|script| - 1] != 'p' then Unmodelled else AddressesOf(script[..|script| - 1])
  }

  function AddressesOf(body: string): SedMeaning {
    var i := IndexOf(body, ',');
    FirstAddress(body[..i], if i == |body| then None else Some(body[i + 1..]))
  }

  function FirstAddress(a: string, b: Option<string>): SedMeaning {
    if a != [] && a[0] == '+' then Invalid
    else if a == [] || !AllDigits(a) || Decimal(a) == 0 then Unmodelled
    else match b
    case None => Prints(LineRange(Decimal(a), Some(Decimal(a))))
    case Some(second) => SecondAddress(Decimal(a), second)
  }

  function SecondAddress(start: nat, b: string): SedMeaning {
    if b == "$" then Prints(LineRange(start, None))
    else if b != [] && AllDigits(b) then
      Prints(LineRange(start, Some(if Decimal(b) < start then start else Decimal(b))))
    else if |b| > 1 && b[0] == '+' && AllDigits(b[1..]) then Prints(LineRange(start, Some(start + Decimal(b[1..]))))
    else Unmodelled
  }

  /** The flags of `cat` that add to lines and keep them: clusters of these letters. */
  predicate IsCatOption(tok: string) {
    |tok| > 1 && tok[0] == '-' && forall c :: c in tok[1..] ==> c in "nbvet"
  }

  /** `nl -b` with a style, a positive `-w`, and `-v`. */
  predicate IsNlOption(tok: string) {
    || tok == "-ba" || tok == "-bt" || tok == "-bn"
    || (|tok| > 2 && (tok[..2] == "-w" || tok[..2] == "-v") && ParseU64(tok[2..]).Some?
        && (tok[..2] == "-w" ==> ParseU64(tok[2..]).value > 0))
  }

  predicate IsReader(words: seq<string>) {
    && words != [] && Operands(words[1..]) != []
    && (|| (BaseName(words[0]) == "cat" && forall a :: a in words[1..] && IsFlag(a) ==> IsCatOption(a))
        || (BaseName(words[0]) == "nl" && forall a :: a in words[1..] && IsFlag(a) ==> IsNlOption(a)))
  }

  predicate IsSedOn(words: seq<string>) {
    |words| == 4 && BaseName(words[0]) == "sed" && words[1] == "-n" && !IsFlag(words[3])
    && !SedMeaningOf(words[2]).Unmodelled?
  }

  predicate IsSedFilter(words: seq<string>) {
    |words| == 3 && BaseName(words[0]) == "sed" && words[1] == "-n" && !SedMeaningOf(words[2]).Unmodelled?
  }

  predicate IsNlFilter(words: seq<string>) {
    words != [] && BaseName(words[0]) == "nl" && forall a :: a in words[1..] ==> IsNlOption(a)
  }

  /** What a reader prints of one file. */
  function ReaderLines(prog: string, file: seq<string>, blanks: bool): seq<Option<nat>> {
    if BaseName(prog) == "nl" then NlLines(file, 1, blanks) else CatLines(|file|)
  }

  function ReadEach(prog: string, ops: seq<string>, files: Files, blanks: bool): seq<Shown> {
    if ops == [] then []
    else
      (if ops[0] in files
       then [Shown(ops[0], files[ops[0]], ReaderLines(prog, files[ops[0]], blanks))] else [])
      + ReadEach(prog, ops[1..], files, blanks)
  }

  function SedShown(meaning: SedMeaning, path: string, files: Files): seq<Shown> {
    if meaning.Prints? && path in files
    then [Shown(path, files[path], WindowOf(CatLines(|files[path]|), meaning.window))] else []
  }

  /** One of the modelled utilities on its operands; `None` for any other program. A reader
      succeeds exactly when every operand is readable. */
  function Utility(words: seq<string>, files: Files, blanks: bool): Option<UtilityRun> {
    if IsReader(words) then
      var ops := Operands(words[1..]);
      Some(UtilityRun(if forall o :: o in ops ==> o in files then 0 else 1, ReadEach(words[0], ops, files, blanks)))
    else if IsSedOn(words) then
      var shown := SedShown(SedMeaningOf(words[2]), words[3], files);
      Some(UtilityRun(if shown == [] then 1 else 0, shown))
    else if words != [] && words[0] == "echo" then Some(UtilityRun(0, []))
    else None
  }

  /** What `reader | sed -n` shows: the window of what the reader printed. */
  function ReaderPipeShown(prog: string, meaning: SedMeaning, path: string, files: Files, blanks: bool): seq<Shown> {
    if meaning.Prints? && path in files
    then [Shown(path, files[path], WindowOf(ReaderLines(prog, files[path], blanks), meaning.window))] else []
  }

  /** What `sed -n | nl` shows: `nl` sees the window only. */
  function SedPipeShown(meaning: SedMeaning, path: string, files: Files, blanks: bool): seq<Shown> {
    if meaning.Prints? && path in files
    then
      var file := files[path];
      [Shown(path, file, NlLines(WindowOf(file, meaning.window), Skips(meaning.window, |file|) + 1, blanks))]
    else []
  }

  /** A two-stage pipeline of modelled utilities. Its status is the last stage's, so a reader
      that fails is hidden. */
  function Pipeline(a: seq<string>, b: seq<string>, files: Files, blanks: bool): Option<UtilityRun> {
    if IsReader(a) && |Operands(a[1..])| == 1 && IsSedFilter(b) then
      var m := SedMeaningOf(b[2]);
      Some(UtilityRun(if m.Prints? then 0 else 1, ReaderPipeShown(a[0], m, Operands(a[1..])[0], files, blanks)))
    else if IsSedOn(a) && IsNlFilter(b) then
      Some(UtilityRun(0, SedPipeShown(SedMeaningOf(a[2]), a[3], files, blanks)))
    else None
  }

  // ----- links and lists -----

  datatype State = State(files: Files, intact: bool)

  datatype LinkRun = LinkRun(link: string, before: Files, status: nat, shown: seq<Shown>)

  datatype Outcome = Outcome(status: nat, state: State, exited: bool, trace: seq<LinkRun>)

  /** Everything the text does not decide: what other programs do to the files, what a link that
      may change the shell, or a text outside the model, does, and which kind of `nl` there is. */
  datatype World = World(
    program: (string, Files) -> (nat, Files),
    anything: (string, State) -> (nat, State, bool),
    blanks: bool)

  datatype Parsed = Simple(words: seq<string>) | Piped(first: seq<string>, second: seq<string>) | Other

  function ParseLink(link: string): (p: Parsed)
    ensures p.Simple? && |p.words| > 1 ==> forall w :: w in p.words ==> |w| < |link|
  {
    var stages := Pieces(["|"], link, None);
    if |stages| == 1 then
      UncutIsOnePiece(["|"], link, None);
      FirstPieceIsPrefix(["|"], link, None);
      (match Lex(stages[0]) case None => Other case Some(ws) => Simple(ws))
    else if |stages| == 2 then
      match (Lex(stages[0]), Lex(stages[1]))
      case (Some(a), Some(b)) => Piped(a, b)
      case _ => Other
    else Other
  }

  /** Letters of a flag that leave the shell to run its script: `-c` itself, logging in, being
      interactive, tracing, stopping at an error, and options that change nothing modelled here. */
  const CALL_LETTERS: string := "acefhilmpuvxC"

  predicate IsCallFlag(flag: string) {
    |flag| > 1 && flag[0] == '-' && 'c' in flag && forall ch :: ch in flag[1..] ==> ch in CALL_LETTERS
  }

  /** The shell runs the script as it stands: under `-e` or `-u` a sequence may stop early, a single
      list not; under `-n`, which is no such letter, nothing is run. */
  predicate RunsScript(flag: string, script: string) {
    IsCallFlag(flag) && ('e' in flag || 'u' in flag ==> |SeqLists(script)| <= 1)
  }

  /** `SHELL -c SCRIPT`, which runs the script in a shell of its own. */
  predicate IsShellCall(words: seq<string>) {
    |words| == 3 && BaseName(words[0]) in SHELLS && RunsScript(words[1], words[2])
  }

  function AllShown(trace: seq<LinkRun>): seq<Shown> {
    if trace == [] then [] else trace[0].shown + AllShown(trace[1..])
  }

  /** No backslash that escapes: none outside quotes, and inside double quotes none before a
      character it would escape. */
  predicate NoEscape(s: string, q: Option<char>) {
    s == [] || ((s[0] == '\\' ==> q == Some('\'') || (q == Some('"') && !ExpandsAt(s)))
                && NoEscape(s[1..], StepQuote(q, s[0])))
  }

  /** Whitespace is what the shell takes for it. */
  predicate OnlyShellSpace(text: string) { forall c :: c in text && IsSpace(c) ==> IsBlank(c) || c == '\n' }

  /** The lists the semantics covers: quotes closed, no escape, no `||`, no background `&`, no
      comment and no foreign whitespace. Anything else may do anything. */
  predicate Modelled(text: string) {
    && Balanced(text)
    && OnlyShellSpace(text)
    && NoEscape(text, None)
    && Uncut(["||"], text, None)
    && Uncut(["#"], text, None)
    && forall p :: p in Pieces(["&&"], text, None) ==> Uncut(["&"], p, None)
  }

  function Program(w: World, link: string, st: State): Outcome {
    var (status, files) := w.program(link, st.files);
    Outcome(status, State(files, st.intact), false, [LinkRun(link, st.files, status, [])])
  }

  function Anything(w: World, text: string, st: State): Outcome {
    var (status, st', exited) := w.anything(text, st);
    Outcome(status, st', exited, [LinkRun(text, st.files, status, [])])
  }

  function Ran(link: string, st: State, u: UtilityRun): Outcome {
    Outcome(u.status, st, false, [LinkRun(link, st.files, u.status, u.shown)])
  }

  function ExecLink(w: World, link: string, st: State): (o: Outcome)
    ensures |o.trace| == 1
    decreases |link|, 0
  {
    if !st.intact || MayChange(link) then Anything(w, link, st)
    else match ParseLink(link)
    case Simple(words) =>
      if IsShellCall(words) then
        assert words[2] in words;
        var o := ExecText(w, words[2], st);
        Outcome(o.status, State(o.state.files, true), false, [LinkRun(link, st.files, o.status, AllShown(o.trace))])
      else (match Utility(words, st.files, w.blanks) case Some(u) => Ran(link, st, u) case None => Program(w, link, st))
    case Piped(a, b) =>
      (match Pipeline(a, b, st.files, w.blanks) case Some(u) => Ran(link, st, u) case None => Program(w, link, st))
    case Other => Program(w, link, st)
  }

  /** How one link, or one list, runs. */
  type Runner = (string, State) --> Outcome

  ghost predicate CanRun(run: Runner, links: seq<string>) {
    forall l: string, st: State :: l in links ==> run.requires(l, st)
  }

  /** An AND-list: each link runs only if the one before it exited zero. */
  function AndList(run: Runner, links: seq<string>, st: State): Outcome
    requires CanRun(run, links)
  {
    if links == [] then Outcome(0, st, false, [])
    else
      var o := run(links[0], st);
      if o.exited || o.status != 0 || |links| == 1 then o
      else
        var r := AndList(run, links[1..], o.state);
        r.(trace := o.trace + r.trace)
  }

  /** A sequence: every list runs; the status is the last one's. */
  function Sequence(run: Runner, lists: seq<string>, st: State): Outcome
    requires CanRun(run, lists)
  {
    if lists == [] then Outcome(0, st, false, [])
    else
      var o := run(lists[0], st);
      if o.exited || |lists| == 1 then o
      else
        var r := Sequence(run, lists[1..], o.state);
        r.(trace := o.trace + r.trace)
  }

  function LinkRunner(w: World, n: nat): Runner
    decreases n, 1
  {
    (link: string, st: State) requires |link| <= n => ExecLink(w, link, st)
  }

  /** Lists of links that `run` can run. */
  ghost predicate RunsUpTo(run: Runner, n: nat) { forall l: string, st: State :: |l| <= n ==> run.requires(l, st) }

  function ChainRunner(run: Runner, n: nat): Runner
    requires RunsUpTo(run, n)
  {
    (list: string, st: State) requires |list| <= n => AndList(run, AndLinks(list), st)
  }

  function ListRunner(w: World, n: nat): Runner
    decreases n, 2
  {
    ChainRunner(LinkRunner(w, n), n)
  }

  function AndLinks(list: string): (ls: seq<string>)
    ensures forall l :: l in ls ==> |l| <= |list|
  {
    LinksAreShorter(["&&"], list);
    NonEmpty(Pieces(["&&"], list, None))
  }

  function SeqLists(text: string): (ls: seq<string>)
    ensures forall l :: l in ls ==> |l| <= |text|
  {
    LinksAreShorter([";", "\n"], text);
    NonEmpty(Pieces([";", "\n"], text, None))
  }

  /** Running a list. An empty link is skipped: a list the shell rejects for one runs nothing and
      exits non-zero, so skipping it only makes the claims about a zero exit stronger. */
  function ExecText(w: World, text: string, st: State): Outcome
    decreases |text|, 3
  {
    if !Modelled(text) then Anything(w, text, st) else Sequence(ListRunner(w, |text|), SeqLists(text), st)
  }

  lemma LinksAreShorter(seps: seq<string>, s: string)
    ensures forall l :: l in NonEmpty(Pieces(seps, s, None)) ==> |l| <= |s|
  {
    PiecesAreShorter(seps, s, None);
    KeptAreShorter(Pieces(seps, s, None), |s|);
  }

  lemma {:induction false} PiecesAreShorter(seps: seq<string>, s: string, q: Option<char>)
    ensures forall p :: p in Pieces(seps, s, q) ==> |p| <= |s|
    decreases |s|
  {
    if s == [] {
    } else {
      if CutHere(seps, s, q) {
        PiecesAreShorter(seps, s[MatchLen(seps, s)..], None);
      } else {
        PiecesAreShorter(seps, s[1..], StepQuote(q, s[0]));
      }
    }
  }

  lemma {:induction false} KeptAreShorter(ps: seq<string>, n: nat)
    requires forall p :: p in ps ==> |p| <= n
    ensures forall l :: l in NonEmpty(ps) ==> |l| <= n
  {
    if ps == [] {
    } else {
      assert ps[0] in ps;
      KeptAreShorter(ps[1..], n);
    }
  }
}
