/** The guard of AND chains (`chain_links_are_unprovable`) against the shell: which links it lets
    through can still change the shell or end it. */
module GuardExact {
  import opened Text
  import opened ShellSplit
  import opened ShellSemantics
  import opened ReadSoundness

  // ----- the guard's verdict on the links of a chain -----

  lemma {:induction false} UncutMerge(s: string, q: Option<char>)
    requires Uncut([";", "\n"], s, q)
    ensures Pieces(GUARD_SEPS, s, q) == Pieces(["&&"], s, q)
    decreases |s|
  {
    if s == [] {
    } else {
      GuardMatch(s);
      SemicolonMatch(s);
      OneSeparator("&&", s);
      if CutHere(["&&"], s, q) {
        assert s[1..][1..] == s[2..];
        UncutMerge(s[2..], None);
      } else {
        UncutMerge(s[1..], StepQuote(q, s[0]));
      }
    }
  }

  lemma SemicolonMatch(s: string)
    requires s != []
    ensures MatchLen([";", "\n"], s) == if s[0] == ';' || s[0] == '\n' then 1 else 0
  {
    assert [";", "\n"][1..] == ["\n"] && ["\n"][1..] == [];
    assert ";" <= s <==> s[0] == ';';
    assert "\n" <= s <==> s[0] == '\n';
    assert MatchLen(["\n"], s) == if "\n" <= s then 1 else 0;
  }

  lemma {:induction false} GroupingInPiece(seps: seq<string>, s: string, q: Option<char>)
    requires SepsOk(seps)
    ensures var ps := Pieces(seps, s, q);
            HasGrouping(ps[0], q) || (exists i :: 0 < i < |ps| && HasGrouping(ps[i], None)) ==> HasGrouping(s, q)
    decreases |s|
  {
    if s == [] {
    } else {
      if CutHere(seps, s, q) {
        var n := MatchLen(seps, s);
        GroupingInPiece(seps, s[n..], None);
        assert s == s[..n] + s[n..];
        QuoteFreeText(s[..n]);
        GroupingAppend(s[..n], s[n..], None);
        var tail := Pieces(seps, s[n..], None);
        assert Pieces(seps, s, q) == [[]] + tail;
      } else {
        var q' := StepQuote(q, s[0]);
        GroupingInPiece(seps, s[1..], q');
        var tail := Pieces(seps, s[1..], q');
        assert ([s[0]] + tail[0])[1..] == tail[0];
      }
    }
  }

  lemma {:induction false} QuoteFreeText(s: string)
    requires QuoteFree(s)
    ensures QuoteAfter(s, None).None?
  {
    if s == [] {
    } else {
      QuoteFreeText(s[1..]);
    }
  }

  lemma {:induction false} GroupingTrimStart(s: string)
    ensures HasGrouping(TrimStart(s), None) ==> HasGrouping(s, None)
  {
    if s != [] && IsSpace(s[0]) { GroupingTrimStart(s[1..]); }
  }

  lemma GroupingTrim(s: string)
    ensures HasGrouping(Trim(s), None) ==> HasGrouping(s, None)
  {
    var t := TrimStart(s);
    GroupingTrimStart(s);
    assert t == TrimEnd(t) + t[|TrimEnd(t)|..];
    GroupingAppend(TrimEnd(t), t[|TrimEnd(t)|..], None);
  }

  lemma {:induction false} KeptFrom(ps: seq<string>, l: string) returns (p: string)
    requires l in NonEmpty(ps)
    ensures p in ps && l == Trim(p) && l != []
  {
    if Kept(ps[0]) != [] && l == Trim(ps[0]) {
      p := ps[0];
    } else {
      p := KeptFrom(ps[1..], l);
    }
  }

  lemma GuardAllows(cmd: string, l: string)
    requires !Unprovable(cmd) && l in Pieces(GUARD_SEPS, cmd, None)
    ensures !UnsafeLink(l) && !HasGrouping(cmd, None)
  {
  }

  lemma UnsafeTrim(p: string)
    ensures UnsafeLink(Trim(p)) <==> UnsafeLink(p)
  {
    WordsTrim(p);
    assert FirstWord(Trim(p)) == FirstWord(p);
  }

  lemma NoGroupingInPieces(cmd: string, p: string)
    requires !HasGrouping(cmd, None) && p in Pieces(["&&"], cmd, None)
    ensures !HasGrouping(Trim(p), None)
  {
    GuardSepsOk();
    GroupingInPiece(["&&"], cmd, None);
    var ps := Pieces(["&&"], cmd, None);
    var i :| 0 <= i < |ps| && ps[i] == p;
    GroupingTrim(p);
  }

  lemma PieceIsSafe(cmd: string, p: string)
    requires !Unprovable(cmd) && Uncut([";", "\n"], cmd, None) && p in Pieces(["&&"], cmd, None)
    ensures !UnsafeLink(Trim(p)) && !HasGrouping(Trim(p), None)
  {
    UncutMerge(cmd, None);
    GuardAllows(cmd, p);
    UnsafeTrim(p);
    NoGroupingInPieces(cmd, p);
  }

  /** What the guard has established about each link of a chain it passes. */
  predicate Passed(l: string) { !UnsafeLink(l) && !HasGrouping(l, None) }

  lemma PassedLink(cmd: string, l: string)
    requires !Unprovable(cmd) && Uncut([";", "\n"], cmd, None) && l in NonEmpty(Pieces(["&&"], cmd, None))
    ensures Passed(l)
  {
    var p := KeptFrom(Pieces(["&&"], cmd, None), l);
    PieceIsSafe(cmd, p);
  }

  // ----- bare command words -----

  /** A word that is its own text holds no quote, no blank and nothing special. */
  lemma {:induction false} LexedBare(s: string)
    requires LexWord(s, None).Some? && LexWord(s, None).value.0 + LexWord(s, None).value.1 == s
    ensures AllOrdinary(LexWord(s, None).value.0) && EndsWord(LexWord(s, None).value.1)
  {
    var (w, rest) := LexWord(s, None).value;
    if s != [] && !IsBlank(s[0]) {
      if IsQuote(s[0]) {
        assert false;
      } else {
        var (w', rest') := LexWord(s[1..], None).value;
        assert w == [s[0]] + w' && rest == rest';
        assert (w + rest)[1..] == w' + rest';
        LexedBare(s[1..]);
      }
    }
  }

  /** The text around a bare command word. */
  lemma {:induction false} BareCommandText(stage: string) returns (gap: string, rest: string)
    requires CommandOf(stage).Literal? && CommandOf(stage).bare
    ensures var w := CommandOf(stage).word;
            && stage == gap + (w + rest) && AllOrdinary(w) && w != [] && EndsWord(rest)
            && forall c :: c in gap ==> IsBlank(c)
  {
    if IsBlank(stage[0]) {
      gap, rest := BareCommandText(stage[1..]);
      var w := CommandOf(stage).word;
      assert stage == [stage[0]] + (gap + (w + rest));
      gap := [stage[0]] + gap;
      assert stage == gap + (w + rest);
    } else {
      gap, rest := [], LexWord(stage, None).value.1;
      LexedBare(stage);
      assert [] + (CommandOf(stage).word + rest) == stage;
      NoWordIsEmpty(stage);
    }
  }

  lemma NoWordIsEmpty(s: string)
    requires s != [] && !IsBlank(s[0]) && LexWord(s, None).Some?
    requires LexWord(s, None).value.0 + LexWord(s, None).value.1 == s
    ensures LexWord(s, None).value.0 != []
  {
    LexedBare(s);
  }

  lemma OrdinaryHasNoSpace(w: string, text: string)
    requires AllOrdinary(w) && OnlyShellSpace(text) && forall c :: c in w ==> c in text
    ensures NoSpace(w)
  {
    forall c | c in w ensures !IsSpace(c) {
      assert c in text && IsOrdinary(c);
    }
  }

  lemma {:induction false} WordLenAtLeast(w: string, x: string)
    requires NoSpace(w)
    ensures WordLen(w + x) >= |w| && (x == [] || IsSpace(x[0]) ==> WordLen(w + x) == |w|)
  {
    if w == [] {
      assert w + x == x;
    } else {
      assert w[0] in w && (w + x)[0] == w[0] && (w + x)[1..] == w[1..] + x;
      WordLenAtLeast(w[1..], x);
    }
  }

  /** The guard's first word of a text that starts with the word `w`. */
  lemma FirstWordIs(gap: string, w: string, x: string)
    requires w != [] && NoSpace(w) && forall c :: c in gap ==> IsBlank(c)
    ensures w <= FirstWord(gap + (w + x))
    ensures x == [] || IsSpace(x[0]) ==> FirstWord(gap + (w + x)) == w
  {
    var s := w + x;
    SkipGap(gap, s);
    WordLenAtLeast(w, x);
    assert w[0] in w && s[0] == w[0];
    assert FirstWord(s) == s[..WordLen(s)];
    assert s[..|w|] == w && s[..WordLen(s)][..|w|] == w;
  }

  // ----- what gets past the guard -----

  predicate IsKeyword(word: string) { IsChanger(word) || IsReserved(word) }

  /** The stage is its command word alone, with no blank between it and the bar. */
  predicate Glued(stage: string) { stage != [] && |Words(stage)| == 1 && !IsBlank(stage[|stage| - 1]) }

  /** Stage `i` of a link the guard passes hides a command that may change the shell: its command
      word is not literal; or a quoted built-in; or in a later stage, or glued to the bar, where the
      guard's first word is not it; or a built-in or reserved word the guard does not list. */
  predicate EvadesAt(stages: seq<string>, i: nat)
    requires i < |stages|
  {
    match CommandOf(stages[i])
    case Missing => true
    case Hidden => true
    case Literal(word, bare) =>
      if !bare then IsChanger(word)
      else if i > 0 then IsKeyword(word) || Assigns(word)
      else if |stages| > 1 && Glued(stages[0]) then IsKeyword(word)
      else IsKeyword(word) && word !in UNSAFE_FIRST_WORDS
  }

  predicate Evades(link: string) {
    var stages := Pieces(["|"], link, None);
    exists i :: 0 <= i < |stages| && EvadesAt(stages, i)
  }

  lemma AssignsHasEquals(w: string)
    requires Assigns(w)
    ensures '=' in w
  {
  }

  lemma FirstWordOfParts(link: string, p: string, gap: string, w: string, rest: string)
    requires p <= link && p == gap + (w + rest) && w != [] && NoSpace(w) && EndsWord(rest)
    requires forall c :: c in gap ==> IsBlank(c)
    ensures w <= FirstWord(link)
    ensures rest != [] || p == link ==> FirstWord(link) == w
  {
    var tail := link[|p|..];
    assert link == gap + (w + (rest + tail));
    FirstWordIs(gap, w, rest + tail);
    if rest != [] {
      assert (rest + tail)[0] == rest[0];
    } else if p == link {
      assert rest + tail == [];
    }
  }

  /** The first stage: the guard's raw first word is the shell's command word, unless glued. */
  lemma FirstStage(link: string, stages: seq<string>)
    requires OnlyShellSpace(link) && stages == Pieces(["|"], link, None)
    requires CommandOf(stages[0]).Literal? && CommandOf(stages[0]).bare
    ensures CommandOf(stages[0]).word <= FirstWord(link)
    ensures |stages| == 1 || !Glued(stages[0]) ==> CommandOf(stages[0]).word == FirstWord(link)
  {
    var p := stages[0];
    var w := CommandOf(p).word;
    var gap, rest := BareCommandText(p);
    FirstPieceIsPrefix(["|"], link, None);
    assert forall c :: c in w ==> c in p;
    OrdinaryHasNoSpace(w, link);
    FirstWordOfParts(link, p, gap, w, rest);
    if rest == [] {
      if |stages| == 1 { OnlyStage(link, p); } else { GluedText(p, gap, w); }
    }
  }

  lemma OnlyStage(link: string, p: string)
    requires |Pieces(["|"], link, None)| == 1 && Pieces(["|"], link, None)[0] == p
    ensures p == link
  {
    PiecesRebuild(link, "|", None);
    assert Pieces(["|"], link, None) == [p];
    assert Rejoin([p], "|") == p;
  }

  lemma GluedText(p: string, gap: string, w: string)
    requires p == gap + (w + []) && w != [] && NoSpace(w) && AllOrdinary(w) && forall c :: c in gap ==> IsBlank(c)
    ensures Glued(p)
  {
    SkipGap(gap, w);
    assert w + [] == w;
    WordLenAtLeast(w, []);
    assert w[0] in w && w[|w| - 1] in w;
    assert w[..|w|] == w && w[|w|..] == [];
    assert Words(w) == [w];
  }

  /** Of the first stage the guard misses exactly what evades it. */
  lemma FirstStageExact(link: string, stages: seq<string>)
    requires OnlyShellSpace(link) && Passed(link) && stages == Pieces(["|"], link, None)
    ensures CommandChanges(CommandOf(stages[0])) <==> EvadesAt(stages, 0)
  {
    var c := CommandOf(stages[0]);
    if c.Literal? && c.bare {
      FirstStage(link, stages);
      if Assigns(c.word) { AssignsHasEquals(c.word); }
    }
  }

  /** A link the guard passes may change the shell exactly when one of its stages evades it. */
  lemma GuardedLinkExact(link: string)
    requires OnlyShellSpace(link) && Passed(link)
    ensures MayChange(link) <==> Evades(link)
  {
    var stages := Pieces(["|"], link, None);
    FirstStageExact(link, stages);
    forall i | 0 <= i < |stages| ensures CommandChanges(CommandOf(stages[i])) <==> EvadesAt(stages, i) {
    }
    if p :| p in stages && CommandChanges(CommandOf(p)) {
      var i :| 0 <= i < |stages| && stages[i] == p;
    }
    if i :| 0 <= i < |stages| && EvadesAt(stages, i) { assert stages[i] in stages; }
  }

  // ----- what a link does to the shell -----

  /** The run left the shell running and as it was, and one record of itself. */
  predicate StaysUp(o: Outcome, link: string, st: State) {
    && !o.exited && o.state.intact && |o.trace| == 1
    && o.trace[0].link == link && o.trace[0].before == st.files && o.trace[0].status == o.status
  }

  lemma ProgramKeeps(w: World, link: string, st: State)
    requires st.intact
    ensures StaysUp(Program(w, link, st), link, st)
  {
  }

  lemma RanKeeps(link: string, st: State, u: UtilityRun)
    requires st.intact
    ensures StaysUp(Ran(link, st, u), link, st)
  {
  }

  /** What a link that cannot change the shell comes to. */
  lemma ExecCases(w: World, link: string, st: State)
    requires !MayChange(link) && st.intact
    ensures var o := ExecLink(w, link, st);
            match ParseLink(link)
            case Simple(words) =>
              if IsShellCall(words) then StaysUp(o, link, st)
              else (match Utility(words, st.files, w.blanks)
                    case Some(u) => o == Ran(link, st, u) case None => o == Program(w, link, st))
            case Piped(a, b) =>
              (match Pipeline(a, b, st.files, w.blanks)
               case Some(u) => o == Ran(link, st, u) case None => o == Program(w, link, st))
            case Other => o == Program(w, link, st)
  {
  }

  lemma LinkKeepsShell(w: World, link: string, st: State)
    requires !MayChange(link) && st.intact
    ensures StaysUp(ExecLink(w, link, st), link, st)
  {
    ExecCases(w, link, st);
    ProgramKeeps(w, link, st);
    forall u: UtilityRun ensures StaysUp(Ran(link, st, u), link, st) {
      RanKeeps(link, st, u);
    }
  }

  /** The worst world: whatever may do anything ends the shell with status zero. */
  const ESCAPE := World((t, files) => (0, files), (t, st) => (0, st, true), true)

  lemma EscapeExits(link: string, st: State)
    requires MayChange(link)
    ensures ExecLink(ESCAPE, link, st).status == 0 && ExecLink(ESCAPE, link, st).exited
  {
  }

  ghost predicate KeepsShellAlways(link: string) {
    forall w: World, st: State :: st.intact ==> !ExecLink(w, link, st).exited && ExecLink(w, link, st).state.intact
  }

  /** When the guard suffices: a link it passes leaves every shell running and as it was, whatever
      the world, exactly when none of its stages evades it. */
  lemma GuardSufficesExactly(link: string)
    requires OnlyShellSpace(link) && Passed(link)
    ensures KeepsShellAlways(link) <==> !Evades(link)
  {
    GuardedLinkExact(link);
    if MayChange(link) {
      EscapeExits(link, State(map[], true));
    } else {
      forall w: World, st: State | st.intact
        ensures !ExecLink(w, link, st).exited && ExecLink(w, link, st).state.intact
      {
        LinkKeepsShell(w, link, st);
      }
    }
  }
}
