/** The two pieces of elm_main/_start in src/bin/main.c that turn the rest of
    the command line into work for the first window: assembling the `-e`
    command, and interpreting the `-S` split string. The split operations
    themselves (split_vertically, split_horizontally) are recorded as actions
    instead of being performed; terminals are named by how many times
    term_next_get was applied to reach them from the first one. */
module Startup {
  import opened Types
  import opened Scanf

  // ---------------------------------------------------------------------
  // `-e`: the command to run

  /** What `-e` leaves for the window: an error when no argument follows
      the option (the program then ends, still with EXIT_SUCCESS), or the
      command and the commands queued for later splits. */
  datatype ExecOutcome =
    | MissingArgument(option: string)
    | Command(cmd: string, queued: seq<string>)

  /** The words separated by single spaces, as the string buffer builds
      them. */
  function Join(words: seq<string>): (r: string)
    requires |words| > 0
    ensures |words| == 1 ==> r == words[0]
    ensures |r| >= |words[0]| && r[..|words[0]|] == words[0]
    decreases |words|
  {
    if |words| == 1 then words[0] else words[0] + " " + Join(words[1..])
  }

  /** Appending one more word appends a space and the word. */
  lemma {:induction false} JoinSnoc(words: seq<string>, w: string)
    requires |words| > 0
    ensures Join(words + [w]) == Join(words) + " " + w
    decreases |words|
  {
    if |words| == 1 {
      assert (words + [w])[1..] == [w];
    } else {
      assert (words + [w])[1..] == words[1..] + [w];
      JoinSnoc(words[1..], w);
    }
  }

  /** The pieces of `s` between its spaces, the inverse of Join. */
  function SplitOnSpaces(s: string): (r: seq<string>)
    ensures |r| > 0
    decreases |s|
  {
    if ' ' in s then
      var i := IndexOf(s, ' ');
      [s[..i]] + SplitOnSpaces(s[i + 1..])
    else [s]
  }

  predicate NoSpaces(words: seq<string>)
  {
    forall k :: 0 <= k < |words| ==> ' ' !in words[k]
  }

  /** Joining words that hold no space loses nothing: splitting the joined
      command on its spaces gives the words back. */
  lemma {:induction false} JoinSplitRoundTrip(words: seq<string>)
    requires |words| > 0 && NoSpaces(words)
    ensures SplitOnSpaces(Join(words)) == words
    decreases |words|
  {
    var w := words[0];
    assert ' ' !in w;
    if |words| > 1 {
      var s := Join(words);
      assert s == w + " " + Join(words[1..]);
      assert s[|w|] == ' ';
      assert forall j :: 0 <= j < |w| ==> s[j] == w[j];
      assert IndexOf(s, ' ') == |w|;
      assert s[|w| + 1..] == Join(words[1..]);
      assert s[..|w|] == w;
      assert NoSpaces(words[1..]);
      JoinSplitRoundTrip(words[1..]);
    }
  }

  /** The `-e` handling after option parsing. `args` is the index of the
      first argument getopt did not consume (at least 1, argv[0] being the
      program); with `-S` the first remaining argument is the command and
      the others are queued for the splits, otherwise all of them are joined
      into one command line. */
  method AssembleCommand(argv: seq<string>, args: nat, split: bool) returns (r: ExecOutcome)
    requires 1 <= args <= |argv|
    ensures args == |argv| <==> r.MissingArgument?
    ensures r.MissingArgument? ==> r.option == argv[args - 1]
    ensures r.Command? && split ==> r.cmd == argv[args] && r.queued == argv[args + 1..]
    ensures r.Command? && !split ==> r.cmd == Join(argv[args..]) && r.queued == []
  {
    if args == |argv| {
      return MissingArgument(argv[args - 1]);
    }
    if split {
      var cmds: seq<string> := [];
      var i := args + 1;
      while i < |argv|
        invariant args + 1 <= i <= |argv|
        invariant cmds == argv[args + 1..i]
      {
        cmds := cmds + [argv[i]];
        i := i + 1;
      }
      r := Command(argv[args], cmds);
    } else {
      var buf := argv[args];
      var i := args + 1;
      while i < |argv|
        invariant args + 1 <= i <= |argv|
        invariant buf == Join(argv[args..i])
      {
        JoinSnoc(argv[args..i], argv[i]);
        assert argv[args..i] + [argv[i]] == argv[args..i + 1];
        buf := buf + " " + argv[i];
        i := i + 1;
      }
      assert argv[args..i] == argv[args..];
      r := Command(buf, []);
    }
  }

  // ---------------------------------------------------------------------
  // `-S`: the split string

  datatype Direction = Vertical | Horizontal

  /** One split performed: which way, on which terminal, running which
      command (None when the queue was empty: a NULL command, the shell). */
  datatype SplitAction = SplitAction(dir: Direction, term: nat, cmd: Option<string>)

  /** The interpreter's state: the splits done so far, the commands still
      queued, the terminal `next` names, and whether an invalid character
      ended the interpretation. */
  datatype Splitting = Splitting(actions: seq<SplitAction>, cmds: seq<string>, next: nat,
                                 stopped: bool)

  /** The head of a list, NULL for the empty list (eina_list_data_get). */
  function Head(cmds: seq<string>): Option<string>
  {
    if |cmds| == 0 then None else Some(cmds[0])
  }

  /** The list without its head; removing from the empty list leaves it empty. */
  function Tail(cmds: seq<string>): seq<string>
  {
    if |cmds| == 0 then [] else cmds[1..]
  }

  /** One character of the split string. */
  function Step(st: Splitting, c: char): Splitting
  {
    if st.stopped then st
    else if c == 'v' || c == 'h' then
      var dir := if c == 'v' then Vertical else Horizontal;
      st.(actions := st.actions + [SplitAction(dir, st.next, Head(st.cmds))],
          cmds := Tail(st.cmds))
    else if c == '-' then st.(next := st.next + 1)
    else st.(stopped := true)
  }

  /** The state after the characters of `s`, one at a time from the left. */
  function Run(s: string, cmds: seq<string>): Splitting
    decreases |s|
  {
    if |s| == 0 then Splitting([], cmds, 0, false)
    else Step(Run(s[..|s| - 1], cmds), s[|s| - 1])
  }

  predicate IsSplitChar(c: char) { c == 'v' || c == 'h' || c == '-' }

  /** The directions the characters `v` and `h` of `s` ask for, in order. */
  function Directions(s: string): seq<Direction>
    decreases |s|
  {
    if |s| == 0 then []
    else
      var c := s[|s| - 1];
      Directions(s[..|s| - 1]) +
      (if c == 'v' then [Vertical] else if c == 'h' then [Horizontal] else [])
  }

  /** The number of `-` characters in `s`. */
  function Hops(s: string): nat
    decreases |s|
  {
    if |s| == 0 then 0 else Hops(s[..|s| - 1]) + (if s[|s| - 1] == '-' then 1 else 0)
  }

  function Dirs(actions: seq<SplitAction>): seq<Direction>
  {
    seq(|actions|, k requires 0 <= k < |actions| => actions[k].dir)
  }

  function Min(a: nat, b: nat): nat { if a <= b then a else b }

  /** The queue is consumed from its head: the k-th split runs the k-th
      queued command, or the shell once the queue is empty, and what is left
      is the queue minus the commands handed out. */
  predicate QueueConsumed(st: Splitting, cmds: seq<string>)
  {
    && st.cmds == cmds[Min(|st.actions|, |cmds|)..]
    && (forall k :: 0 <= k < |st.actions| ==>
          st.actions[k].cmd == (if k < |cmds| then Some(cmds[k]) else None))
  }

  /** Hop counts never decrease: no split targets a terminal named by fewer
      hops than an earlier one, or by more hops than taken so far. */
  predicate TermsForward(st: Splitting)
  {
    && (forall k :: 0 <= k < |st.actions| ==> st.actions[k].term <= st.next)
    && (forall k, j :: 0 <= k < j < |st.actions| ==> st.actions[k].term <= st.actions[j].term)
  }

  lemma {:induction false} RunQueue(s: string, cmds: seq<string>)
    ensures QueueConsumed(Run(s, cmds), cmds)
    decreases |s|
  {
    if |s| > 0 {
      var c := s[|s| - 1];
      RunQueue(s[..|s| - 1], cmds);
      var st := Run(s[..|s| - 1], cmds);
      if !st.stopped && (c == 'v' || c == 'h') {
        var n := |st.actions|;
        if n < |cmds| {
          assert Head(st.cmds) == Some(cmds[n]);
          assert Tail(st.cmds) == cmds[Min(n + 1, |cmds|)..];
        }
      }
    }
  }

  lemma {:induction false} RunTerms(s: string, cmds: seq<string>)
    ensures TermsForward(Run(s, cmds))
    decreases |s|
  {
    if |s| > 0 {
      RunTerms(s[..|s| - 1], cmds);
    }
  }

  /** Interpretation stops exactly when a character other than `v`, `h`
      and `-` is met. */
  lemma {:induction false} RunStops(s: string, cmds: seq<string>)
    ensures !Run(s, cmds).stopped <==> forall i :: 0 <= i < |s| ==> IsSplitChar(s[i])
    decreases |s|
  {
    if |s| > 0 {
      var p := s[..|s| - 1];
      RunStops(p, cmds);
      assert forall i :: 0 <= i < |p| ==> p[i] == s[i];
    }
  }

  /** A string of `v`, `h` and `-` only yields one split per `v` or `h`, in
      order, and ends on the terminal reached by all its `-`. */
  lemma {:induction false} RunComplete(s: string, cmds: seq<string>)
    requires !Run(s, cmds).stopped
    ensures Dirs(Run(s, cmds).actions) == Directions(s)
    ensures Run(s, cmds).next == Hops(s)
    decreases |s|
  {
    if |s| > 0 {
      var c := s[|s| - 1];
      var st := Run(s[..|s| - 1], cmds);
      assert !st.stopped;
      RunComplete(s[..|s| - 1], cmds);
      if c == 'v' || c == 'h' {
        var n := |st.actions|;
        assert Dirs(Step(st, c).actions) == Dirs(st.actions) + [Step(st, c).actions[n].dir];
      } else {
        assert Dirs(Step(st, c).actions) == Dirs(st.actions);
      }
    }
  }

  /** The terminal each `v` or `h` of `s` splits: the number of `-` met
      before it. */
  function Targets(s: string): seq<nat>
    decreases |s|
  {
    if |s| == 0 then []
    else
      var p := s[..|s| - 1];
      var c := s[|s| - 1];
      Targets(p) + (if c == 'v' || c == 'h' then [Hops(p)] else [])
  }

  function Terms(actions: seq<SplitAction>): seq<nat>
  {
    seq(|actions|, k requires 0 <= k < |actions| => actions[k].term)
  }

  /** In a string of `v`, `h` and `-` only, each split targets the terminal
      reached by the `-` before it. */
  lemma {:induction false} RunTargets(s: string, cmds: seq<string>)
    requires !Run(s, cmds).stopped
    ensures Terms(Run(s, cmds).actions) == Targets(s)
    decreases |s|
  {
    if |s| > 0 {
      var p := s[..|s| - 1];
      var c := s[|s| - 1];
      var st := Run(p, cmds);
      assert !st.stopped;
      RunTargets(p, cmds);
      RunComplete(p, cmds);
      if c == 'v' || c == 'h' {
        assert Terms(Step(st, c).actions) == Terms(st.actions) + [st.next];
      } else {
        assert Terms(Step(st, c).actions) == Terms(st.actions);
      }
    }
  }

  /** The `-S` loop of _start: walk the split string, splitting the current
      terminal with the head of the queued commands at each `v` or `h`,
      moving to the next terminal at each `-`, and giving up at any other
      character (the splits already done stay). */
  method StartupSplit(split: string, cmds: seq<string>)
    returns (actions: seq<SplitAction>, rest: seq<string>, complete: bool)
    ensures actions == Run(split, cmds).actions && rest == Run(split, cmds).cmds
    ensures complete == !Run(split, cmds).stopped
  {
    actions, rest := [], cmds;
    var next: nat := 0;
    var i := 0;
    while i < |split|
      invariant 0 <= i <= |split|
      invariant Run(split[..i], cmds) == Splitting(actions, rest, next, false)
    {
      var c := split[i];
      assert split[..i + 1][..i] == split[..i];
      if c == 'v' {
        actions := actions + [SplitAction(Vertical, next, Head(rest))];
        rest := Tail(rest);
      } else if c == 'h' {
        actions := actions + [SplitAction(Horizontal, next, Head(rest))];
        rest := Tail(rest);
      } else if c == '-' {
        next := next + 1;
      } else {
        StoppedStays(split, i + 1, cmds);
        return actions, rest, false;
      }
      i := i + 1;
    }
    assert split[..i] == split;
    complete := true;
  }

  /** Once an invalid character has stopped the interpretation, the rest of
      the string changes nothing. */
  lemma {:induction false} StoppedStays(s: string, i: nat, cmds: seq<string>)
    requires i <= |s| && Run(s[..i], cmds).stopped
    ensures Run(s, cmds) == Run(s[..i], cmds)
    decreases |s| - i
  {
    if i == |s| {
      assert s[..i] == s;
    } else {
      assert s[..i + 1][..i] == s[..i];
      StoppedStays(s, i + 1, cmds);
    }
  }
}
