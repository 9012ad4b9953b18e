/** The world in which whatever may do anything ends the shell with status zero, and in which every
    unknown program succeeds: how every other world is mirrored in it. */
module GuardEscape {
  import opened ReadParser
  import opened ShellSemantics
  import opened ReadSoundness
  import opened GuardExact

  /** The run ended the shell, or left it changed. */
  predicate Touched(o: Outcome) { o.exited || !o.state.intact }

  /** `e`, the run in the escaping world from `est`, against any run `o` of the same text: it changes
      no file, it ends the shell only with zero and wherever `o` touched it, and succeeds if `o` did. */
  predicate Mirrors(o: Outcome, e: Outcome, est: State) {
    && e.state == est && (e.exited ==> e.status == 0)
    && (Touched(o) ==> e.exited) && (o.status == 0 ==> e.status == 0)
  }

  ghost predicate AllMirror(run: Runner, esc: Runner, links: seq<string>, est: State)
    requires CanRun(run, links) && CanRun(esc, links)
  {
    forall l: string, st: State :: l in links && st.intact ==> Mirrors(run(l, st), esc(l, est), est)
  }

  lemma MirrorTail(run: Runner, esc: Runner, links: seq<string>, est: State)
    requires CanRun(run, links) && CanRun(esc, links) && AllMirror(run, esc, links, est) && links != []
    ensures CanRun(run, links[1..]) && CanRun(esc, links[1..]) && AllMirror(run, esc, links[1..], est)
  {
    assert forall l :: l in links[1..] ==> l in links;
  }

  lemma {:induction false} AndListMirrors(run: Runner, esc: Runner, links: seq<string>, st: State, est: State)
    requires CanRun(run, links) && CanRun(esc, links) && AllMirror(run, esc, links, est) && st.intact
    ensures Mirrors(AndList(run, links, st), AndList(esc, links, est), est)
  {
    if links == [] {
    } else {
      assert links[0] in links;
      var o, e := run(links[0], st), esc(links[0], est);
      assert Mirrors(o, e, est);
      MirrorTail(run, esc, links, est);
      AndListMirrors(run, esc, links[1..], if Touched(o) then st else o.state, est);
    }
  }

  lemma {:induction false} SequenceMirrors(run: Runner, esc: Runner, lists: seq<string>, st: State, est: State)
    requires CanRun(run, lists) && CanRun(esc, lists) && AllMirror(run, esc, lists, est) && st.intact
    ensures Mirrors(Sequence(run, lists, st), Sequence(esc, lists, est), est)
  {
    if lists == [] {
    } else {
      assert lists[0] in lists;
      var o, e := run(lists[0], st), esc(lists[0], est);
      assert Mirrors(o, e, est);
      MirrorTail(run, esc, lists, est);
      SequenceMirrors(run, esc, lists[1..], if Touched(o) then st else o.state, est);
    }
  }

  // ----- the files a text may need -----

  /** The words of a link that may name a file its success depends on. */
  function Needs(link: string): set<string>
    decreases |link|, 0
  {
    match ParseLink(link)
    case Simple(words) =>
      if IsShellCall(words) then assert words[2] in words; TextNeeds(words[2]) else set x | x in words
    case Piped(a, b) => {}
    case Other => {}
  }

  function TextNeeds(text: string): set<string>
    decreases |text|, 1
  {
    set list, link, x | list in SeqLists(text) && link in AndLinks(list) && x in Needs(link) :: x
  }

  lemma ListNeeds(text: string, list: string, link: string)
    requires list in SeqLists(text) && link in AndLinks(list)
    ensures Needs(link) <= TextNeeds(text)
  {
  }

  lemma UtilityMirrors(words: seq<string>, files: Files, blanks: bool, more: Files, blanks': bool)
    requires Utility(words, files, blanks).Some? && forall x :: x in words ==> x in more
    ensures Utility(words, more, blanks').Some?
    ensures Utility(words, files, blanks).value.status == 0 ==> Utility(words, more, blanks').value.status == 0
  {
    if IsReader(words) { OperandsAre(words[1..]); }
  }

  lemma PipelineMirrors(a: seq<string>, b: seq<string>, files: Files, blanks: bool, more: Files, blanks': bool)
    ensures Pipeline(a, b, files, blanks).Some? <==> Pipeline(a, b, more, blanks').Some?
    ensures Pipeline(a, b, files, blanks).Some? ==>
              Pipeline(a, b, files, blanks).value.status == Pipeline(a, b, more, blanks').value.status
  {
  }

  /** The link is one shell call. */
  predicate IsCall(link: string) { ParseLink(link).Simple? && IsShellCall(ParseLink(link).words) }

  lemma CallMirrors(w: World, link: string, words: seq<string>, st: State, est: State)
    requires !MayChange(link) && ParseLink(link) == Simple(words) && IsShellCall(words) && st.intact && est.intact
    requires Mirrors(ExecText(w, words[2], st), ExecText(ESCAPE, words[2], est), est)
    ensures Mirrors(ExecLink(w, link, st), ExecLink(ESCAPE, link, est), est)
  {
    ExecShellCall(w, link, st, words);
    ExecShellCall(ESCAPE, link, est, words);
  }

  /** A link that is no shell call. */
  lemma PlainMirrors(w: World, link: string, st: State, est: State)
    requires !MayChange(link) && st.intact && est.intact && Needs(link) <= est.files.Keys
    requires !IsCall(link)
    ensures Mirrors(ExecLink(w, link, st), ExecLink(ESCAPE, link, est), est)
  {
    match ParseLink(link)
    case Simple(words) =>
      assert forall x :: x in words ==> x in Needs(link);
      if Utility(words, st.files, w.blanks).Some? {
        UtilityMirrors(words, st.files, w.blanks, est.files, true);
      }
    case Piped(a, b) => PipelineMirrors(a, b, st.files, w.blanks, est.files, true);
    case Other =>
  }

  lemma {:induction false} LinkMirrors(w: World, link: string, st: State, est: State)
    requires st.intact && est.intact && Needs(link) <= est.files.Keys
    ensures Mirrors(ExecLink(w, link, st), ExecLink(ESCAPE, link, est), est)
    decreases |link|, 0
  {
    if MayChange(link) {
    } else if IsCall(link) {
      var words := ParseLink(link).words;
      assert words[2] in words;
      TextMirrors(w, words[2], st, est);
      CallMirrors(w, link, words, st, est);
    } else {
      PlainMirrors(w, link, st, est);
    }
  }

  lemma {:induction false} TextMirrors(w: World, text: string, st: State, est: State)
    requires st.intact && est.intact && TextNeeds(text) <= est.files.Keys
    ensures Mirrors(ExecText(w, text, st), ExecText(ESCAPE, text, est), est)
    decreases |text|, 3
  {
    if Modelled(text) {
      var n, lists := |text|, SeqLists(text);
      TextIsSequence(w, text, lists, st);
      TextIsSequence(ESCAPE, text, lists, est);
      forall list: string, s: State | list in lists && s.intact
        ensures Mirrors(ListRunner(w, n)(list, s), ListRunner(ESCAPE, n)(list, est), est)
      {
        ListMirrors(w, text, list, s, est);
      }
      SequenceMirrors(ListRunner(w, n), ListRunner(ESCAPE, n), lists, st, est);
    }
  }

  lemma {:induction false} ListMirrors(w: World, text: string, list: string, st: State, est: State)
    requires st.intact && est.intact && TextNeeds(text) <= est.files.Keys && list in SeqLists(text)
    ensures Mirrors(ListRunner(w, |text|)(list, st), ListRunner(ESCAPE, |text|)(list, est), est)
    decreases |text|, 2
  {
    var n, links := |text|, AndLinks(list);
    ListRunnerIs(w, n, list, st);
    ListRunnerIs(ESCAPE, n, list, est);
    forall l: string, s: State | l in links && s.intact
      ensures Mirrors(LinkRunner(w, n)(l, s), LinkRunner(ESCAPE, n)(l, est), est)
    {
      ListNeeds(text, list, l);
      LinkMirrors(w, l, s, est);
    }
    AndListMirrors(LinkRunner(w, n), LinkRunner(ESCAPE, n), links, st, est);
  }

  // ----- which links can succeed -----

  /** Some world and some files let the link succeed from a shell as it was. */
  ghost predicate CanSucceed(link: string) {
    exists w: World, st: State :: st.intact && ExecLink(w, link, st).status == 0
  }

  /** A link that can succeed at all succeeds in the escaping world, on any files it needs. */
  lemma SucceedsInEscape(link: string, est: State)
    requires CanSucceed(link) && est.intact && Needs(link) <= est.files.Keys
    ensures ExecLink(ESCAPE, link, est).status == 0 && ExecLink(ESCAPE, link, est).state == est
  {
    var w: World, st: State :| st.intact && ExecLink(w, link, st).status == 0;
    LinkMirrors(w, link, st, est);
  }

  /** The link runs `sed` with a script it rejects, and that decides its status. */
  predicate IsRejected(p: Parsed) {
    match p
    case Simple(words) => IsSedOn(words) && SedMeaningOf(words[2]).Invalid?
    case Piped(a, b) =>
      IsReader(a) && |Operands(a[1..])| == 1 && IsSedFilter(b) && SedMeaningOf(b[2]).Invalid?
    case Other => false
  }

  /** Files that hold every name given. */
  function AllEmpty(names: set<string>): (files: Files)
    ensures names == files.Keys
  {
    map x | x in names :: []
  }

  /** A utility that finds every word it is given fails exactly when it is a `sed` that rejects its
      script, and that fails on any files. */
  lemma UtilityFails(words: seq<string>, files: Files, blanks: bool)
    requires Utility(words, files, blanks).Some?
    ensures IsRejected(Simple(words)) ==> Utility(words, files, blanks).value.status != 0
    ensures !IsRejected(Simple(words)) && (forall x :: x in words ==> x in files) ==>
              Utility(words, files, blanks).value.status == 0
  {
    if IsReader(words) {
      if IsSedOn(words) { SedIsNotAReader(words); }
      OperandsAre(words[1..]);
    }
  }

  lemma PipelineFails(a: seq<string>, b: seq<string>, files: Files, blanks: bool)
    ensures IsRejected(Piped(a, b)) <==>
              Pipeline(a, b, files, blanks).Some? && Pipeline(a, b, files, blanks).value.status != 0
  {
  }

  lemma RejectedFails(w: World, link: string, st: State)
    requires !MayChange(link) && !IsCall(link) && st.intact && IsRejected(ParseLink(link))
    ensures ExecLink(w, link, st).status != 0
  {
    match ParseLink(link)
    case Simple(words) =>
      SedIsNotAReader(words);
      UtilityFails(words, st.files, w.blanks);
      ExecUtility(w, link, st, words, Utility(words, st.files, w.blanks).value);
    case Piped(a, b) =>
      PipelineFails(a, b, st.files, w.blanks);
      ExecPipeline(w, link, st, a, b, Pipeline(a, b, st.files, w.blanks).value);
  }

  lemma OtherSucceeds(link: string, st: State)
    requires !MayChange(link) && !IsCall(link) && st.intact && !IsRejected(ParseLink(link))
    requires Needs(link) <= st.files.Keys
    ensures ExecLink(ESCAPE, link, st).status == 0
  {
    match ParseLink(link)
    case Simple(words) =>
      assert forall x :: x in words ==> x in Needs(link);
      if Utility(words, st.files, true).Some? { UtilityFails(words, st.files, true); }
    case Piped(a, b) => PipelineFails(a, b, st.files, true);
    case Other =>
  }

  /** Of the links that cannot change the shell and are no shell call, exactly those can never
      succeed whose `sed` rejects its script. */
  lemma CanSucceedExactly(link: string)
    requires !MayChange(link) && !IsCall(link)
    ensures CanSucceed(link) <==> !IsRejected(ParseLink(link))
  {
    if IsRejected(ParseLink(link)) {
      forall w: World, st: State | st.intact ensures ExecLink(w, link, st).status != 0 { RejectedFails(w, link, st); }
    } else {
      OtherSucceeds(link, State(AllEmpty(Needs(link)), true));
    }
  }
}
