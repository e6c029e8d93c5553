/** main_ipc_new in src/bin/main.c: the handler a terminology process that
    serves IPC runs when another process sends it an instance. While it
    creates that instance's window, it installs a command line rebuilt from
    the instance's options as the application's arguments, and restores the
    previous ones afterwards. The arguments are counted first, an array of
    the count plus one NULL-initialised entries is allocated, and then the
    arguments are written in a fixed order. */
module IpcArgs {
  import opened Types
  import opened Geometry

  function Bit(b: bool): nat { if b then 1 else 0 }

  /** An option with a value: the flag and the value when the value was
      given, nothing otherwise. */
  function Value(flag: string, v: Option<string>): (r: seq<string>)
    ensures |r| == 2 * Bit(v.Some?)
    ensures v.Some? ==> r[0] == flag && r[1] == v.value
  {
    if v.Some? then [flag, v.value] else []
  }

  /** A switch: the flag alone when it is on. */
  function Flag(flag: string, on: bool): (r: seq<string>)
    ensures |r| == Bit(on)
    ensures on ==> r[0] == flag
  {
    if on then [flag] else []
  }

  /** A tri-state option is passed on only when it was given and is not 0. */
  predicate On(opt: uint8) { IsSet(opt) && opt != 0 }

  /** Where the instance's geometry lives. */
  function PlacementOf(inst: Instance): Placement
  {
    Placement(inst.w, inst.h, inst.x, inst.y, inst.pos)
  }

  /** The directory, background, name, theme, colour scheme and role. */
  function WithValueOptions(before: seq<string>, inst: Instance): seq<string>
  {
    before
    + Value("-d", inst.cd)
    + Value("-b", inst.background)
    + Value("-n", inst.name)
    + Value("-t", inst.theme)
    + Value("--colorscheme", inst.colorscheme)
    + Value("-r", inst.role)
  }

  /** The title, font, split string and geometry text. */
  function WithLayoutOptions(before: seq<string>, inst: Instance): seq<string>
  {
    before
    + Value("-T", inst.title)
    + Value("-f", inst.font)
    + Value("-S", inst.startupSplit)
    + Value("-g", GeometryText(PlacementOf(inst)))
  }

  /** The login shell (when set and non-zero), full screen, iconic and
      borderless. */
  function WithWindowSwitches(before: seq<string>, inst: Instance): seq<string>
  {
    before
    + Flag("-l", On(inst.loginShell))
    + Flag("-F", inst.fullscreen)
    + Flag("-I", inst.iconic)
    + Flag("-B", inst.borderless)
  }

  /** Override-redirect, maximized, hold, no window manager and 256
      colours. */
  function WithWindowHints(before: seq<string>, inst: Instance): seq<string>
  {
    before
    + Flag("-O", inst.overrideRedirect)
    + Flag("-M", inst.maximized)
    + Flag("-H", inst.hold)
    + Flag("-W", inst.nowm)
    + Flag("-2", inst.xterm256color)
  }

  /** Active links, then the command before mute, cursor blink and visual
      bell (each tri-state only when set and non-zero). */
  function WithLastOptions(before: seq<string>, inst: Instance): seq<string>
  {
    before
    + Flag("--active-links", On(inst.activeLinks))
    + Value("-e", inst.cmd)
    + Flag("-m", On(inst.videoMute))
    + Flag("-c", On(inst.cursorBlink))
    + Flag("-G", On(inst.visualBell))
  }

  /** The rebuilt command line, in the order main_ipc_new writes it. The
      command (`-e`) comes before the mute, cursor-blink and visual-bell
      switches, although getopt stops at `-e`. */
  function Arguments(inst: Instance, argv0: string): seq<string>
  {
    var values := WithValueOptions([argv0], inst);
    var layout := WithLayoutOptions(values, inst);
    var switches := WithWindowSwitches(layout, inst);
    var hints := WithWindowHints(switches, inst);
    WithLastOptions(hints, inst)
  }

  function Unset(opt: uint8): nat { if opt == OptUnset then 1 else 0 }

  /** The tri-state options left unset. The counting pass tests them only
      for being non-zero, so each of these is counted without being
      written. */
  function UnsetTriStates(inst: Instance): nat
  {
    Unset(inst.loginShell) + Unset(inst.activeLinks) + Unset(inst.videoMute) +
    Unset(inst.cursorBlink) + Unset(inst.visualBell)
  }

  /** How long the rebuilt command line is. */
  lemma ArgumentsLength(inst: Instance, argv0: string)
    ensures |Arguments(inst, argv0)| ==
      1 + 2 * (Bit(inst.cd.Some?) + Bit(inst.background.Some?) + Bit(inst.name.Some?)
          + Bit(inst.theme.Some?) +
               Bit(inst.colorscheme.Some?) + Bit(inst.role.Some?) + Bit(inst.title.Some?)
                   + Bit(inst.font.Some?) +
               Bit(inst.startupSplit.Some?) + Bit(HasGeometry(PlacementOf(inst)))
                   + Bit(inst.cmd.Some?)) +
      Bit(On(inst.loginShell)) + Bit(inst.fullscreen) + Bit(inst.iconic) + Bit(inst.borderless) +
      Bit(inst.overrideRedirect) + Bit(inst.maximized) + Bit(inst.hold) + Bit(inst.nowm) +
      Bit(inst.xterm256color) + Bit(On(inst.activeLinks)) + Bit(On(inst.videoMute)) +
      Bit(On(inst.cursorBlink)) + Bit(On(inst.visualBell))
  {
  }

  /** The counting pass: one for argv[0], two per option with a value, one
      per switch. It counts exactly what is written, plus one per unset
      tri-state option. */
  method CountArguments(inst: Instance, argv0: string) returns (nargc: nat)
    ensures nargc == |Arguments(inst, argv0)| + UnsetTriStates(inst)
  {
    nargc := 1;
    nargc := CountValueOptions(inst, nargc);
    nargc := CountLayoutOptions(inst, nargc);
    nargc := CountWindowSwitches(inst, nargc);
    nargc := CountLastOptions(inst, nargc);
    ArgumentsLength(inst, argv0);
    CountedTriState(inst.loginShell);
    CountedTriState(inst.activeLinks);
    CountedTriState(inst.videoMute);
    CountedTriState(inst.cursorBlink);
    CountedTriState(inst.visualBell);
  }

  /** The directory, background, name, role, title and font. */
  method CountValueOptions(inst: Instance, n0: nat) returns (nargc: nat)
    ensures nargc == n0 + 2 * Bit(inst.cd.Some?) + 2 * Bit(inst.background.Some?)
                    + 2 * Bit(inst.name.Some?) + 2 * Bit(inst.role.Some?)
                    + 2 * Bit(inst.title.Some?) + 2 * Bit(inst.font.Some?)
  {
    nargc := n0;
    if inst.cd.Some? { nargc := nargc + 2; }
    if inst.background.Some? { nargc := nargc + 2; }
    if inst.name.Some? { nargc := nargc + 2; }
    if inst.role.Some? { nargc := nargc + 2; }
    if inst.title.Some? { nargc := nargc + 2; }
    if inst.font.Some? { nargc := nargc + 2; }
  }

  /** The split string, the geometry, the login shell (counted whenever
      non-zero, so also when unset), full screen, iconic and borderless. */
  method CountLayoutOptions(inst: Instance, n0: nat) returns (nargc: nat)
    ensures nargc == n0 + 2 * Bit(inst.startupSplit.Some?)
                    + 2 * Bit(HasGeometry(PlacementOf(inst))) + Bit(inst.loginShell != 0)
                    + Bit(inst.fullscreen) + Bit(inst.iconic) + Bit(inst.borderless)
  {
    nargc := n0;
    if inst.startupSplit.Some? { nargc := nargc + 2; }
    if HasGeometry(PlacementOf(inst)) { nargc := nargc + 2; }
    if inst.loginShell != 0 { nargc := nargc + 1; }
    if inst.fullscreen { nargc := nargc + 1; }
    if inst.iconic { nargc := nargc + 1; }
    if inst.borderless { nargc := nargc + 1; }
  }

  /** Override-redirect, maximized, hold, no window manager, 256 colours
      and active links (counted whenever non-zero). */
  method CountWindowSwitches(inst: Instance, n0: nat) returns (nargc: nat)
    ensures nargc == n0 + Bit(inst.overrideRedirect) + Bit(inst.maximized)
                    + Bit(inst.hold) + Bit(inst.nowm) + Bit(inst.xterm256color)
                    + Bit(inst.activeLinks != 0)
  {
    nargc := n0;
    if inst.overrideRedirect { nargc := nargc + 1; }
    if inst.maximized { nargc := nargc + 1; }
    if inst.hold { nargc := nargc + 1; }
    if inst.nowm { nargc := nargc + 1; }
    if inst.xterm256color { nargc := nargc + 1; }
    if inst.activeLinks != 0 { nargc := nargc + 1; }
  }

  /** Mute, cursor blink and visual bell (counted whenever non-zero), the
      command, the theme and the colour scheme. */
  method CountLastOptions(inst: Instance, n0: nat) returns (nargc: nat)
    ensures nargc == n0 + Bit(inst.videoMute != 0) + Bit(inst.cursorBlink != 0)
                    + Bit(inst.visualBell != 0) + 2 * Bit(inst.cmd.Some?)
                    + 2 * Bit(inst.theme.Some?) + 2 * Bit(inst.colorscheme.Some?)
  {
    nargc := n0;
    if inst.videoMute != 0 { nargc := nargc + 1; }
    if inst.cursorBlink != 0 { nargc := nargc + 1; }
    if inst.visualBell != 0 { nargc := nargc + 1; }
    if inst.cmd.Some? { nargc := nargc + 2; }
    if inst.theme.Some? { nargc := nargc + 2; }
    if inst.colorscheme.Some? { nargc := nargc + 2; }
  }

  /** A tri-state option is counted when it is non-zero: either written
      (given and not 0) or unset (0xff). */
  lemma CountedTriState(opt: uint8)
    ensures Bit(opt != 0) == Bit(On(opt)) + Unset(opt)
  {
  }

  /** The array holds `written` from its start and NULL everywhere after. */
  predicate Filled(a: seq<Option<string>>, written: seq<string>)
  {
    && |written| <= |a|
    && (forall k :: 0 <= k < |written| ==> a[k] == Some(written[k]))
    && (forall k :: |written| <= k < |a| ==> a[k] == None)
  }

  /** `nargv[i++] = flag; nargv[i++] = value;` when the value was given. */
  method PutValue(a: array<Option<string>>, i: nat, flag: string, v: Option<string>,
                  ghost written: seq<string>)
    returns (j: nat)
    requires Filled(a[..], written) && i == |written|
    requires i + |Value(flag, v)| <= a.Length
    modifies a
    ensures Filled(a[..], written + Value(flag, v)) && j == i + |Value(flag, v)|
  {
    j := i;
    if v.Some? {
      a[j] := Some(flag);
      j := j + 1;
      a[j] := Some(v.value);
      j := j + 1;
    }
  }

  /** `nargv[i++] = flag;` when the switch is on. */
  method PutFlag(a: array<Option<string>>, i: nat, flag: string, on: bool,
                 ghost written: seq<string>)
    returns (j: nat)
    requires Filled(a[..], written) && i == |written|
    requires i + |Flag(flag, on)| <= a.Length
    modifies a
    ensures Filled(a[..], written + Flag(flag, on)) && j == i + |Flag(flag, on)|
  {
    j := i;
    if on {
      a[j] := Some(flag);
      j := j + 1;
    }
  }

  /** Writes what WithValueOptions appends. */
  method FillValueOptions(a: array<Option<string>>, i: nat, inst: Instance, ghost written: seq<string>)
    returns (j: nat)
    requires Filled(a[..], written) && i == |written|
    requires |WithValueOptions(written, inst)| <= a.Length
    modifies a
    ensures Filled(a[..], WithValueOptions(written, inst)) && j == |WithValueOptions(written, inst)|
  {
    ghost var w := written;
    j := i;
    j := PutValue(a, j, "-d", inst.cd, w);
    w := w + Value("-d", inst.cd);
    j := PutValue(a, j, "-b", inst.background, w);
    w := w + Value("-b", inst.background);
    j := PutValue(a, j, "-n", inst.name, w);
    w := w + Value("-n", inst.name);
    j := PutValue(a, j, "-t", inst.theme, w);
    w := w + Value("-t", inst.theme);
    j := PutValue(a, j, "--colorscheme", inst.colorscheme, w);
    w := w + Value("--colorscheme", inst.colorscheme);
    j := PutValue(a, j, "-r", inst.role, w);
    w := w + Value("-r", inst.role);
  }

  /** Writes what WithLayoutOptions appends. */
  method FillLayoutOptions(a: array<Option<string>>, i: nat, inst: Instance, ghost written: seq<string>)
    returns (j: nat)
    requires Filled(a[..], written) && i == |written|
    requires |WithLayoutOptions(written, inst)| <= a.Length
    modifies a
    ensures Filled(a[..], WithLayoutOptions(written, inst)) && j == |WithLayoutOptions(written, inst)|
  {
    ghost var w := written;
    j := i;
    j := PutValue(a, j, "-T", inst.title, w);
    w := w + Value("-T", inst.title);
    j := PutValue(a, j, "-f", inst.font, w);
    w := w + Value("-f", inst.font);
    j := PutValue(a, j, "-S", inst.startupSplit, w);
    w := w + Value("-S", inst.startupSplit);
    j := PutValue(a, j, "-g", GeometryText(PlacementOf(inst)), w);
    w := w + Value("-g", GeometryText(PlacementOf(inst)));
  }

  /** Writes what WithWindowSwitches appends. */
  method FillWindowSwitches(a: array<Option<string>>, i: nat, inst: Instance, ghost written: seq<string>)
    returns (j: nat)
    requires Filled(a[..], written) && i == |written|
    requires |WithWindowSwitches(written, inst)| <= a.Length
    modifies a
    ensures Filled(a[..], WithWindowSwitches(written, inst)) && j == |WithWindowSwitches(written, inst)|
  {
    ghost var w := written;
    j := i;
    j := PutFlag(a, j, "-l", On(inst.loginShell), w);
    w := w + Flag("-l", On(inst.loginShell));
    j := PutFlag(a, j, "-F", inst.fullscreen, w);
    w := w + Flag("-F", inst.fullscreen);
    j := PutFlag(a, j, "-I", inst.iconic, w);
    w := w + Flag("-I", inst.iconic);
    j := PutFlag(a, j, "-B", inst.borderless, w);
    w := w + Flag("-B", inst.borderless);
  }

  /** Writes what WithWindowHints appends. */
  method FillWindowHints(a: array<Option<string>>, i: nat, inst: Instance, ghost written: seq<string>)
    returns (j: nat)
    requires Filled(a[..], written) && i == |written|
    requires |WithWindowHints(written, inst)| <= a.Length
    modifies a
    ensures Filled(a[..], WithWindowHints(written, inst)) && j == |WithWindowHints(written, inst)|
  {
    ghost var w := written;
    j := i;
    j := PutFlag(a, j, "-O", inst.overrideRedirect, w);
    w := w + Flag("-O", inst.overrideRedirect);
    j := PutFlag(a, j, "-M", inst.maximized, w);
    w := w + Flag("-M", inst.maximized);
    j := PutFlag(a, j, "-H", inst.hold, w);
    w := w + Flag("-H", inst.hold);
    j := PutFlag(a, j, "-W", inst.nowm, w);
    w := w + Flag("-W", inst.nowm);
    j := PutFlag(a, j, "-2", inst.xterm256color, w);
    w := w + Flag("-2", inst.xterm256color);
  }

  /** Writes what WithLastOptions appends. */
  method FillLastOptions(a: array<Option<string>>, i: nat, inst: Instance, ghost written: seq<string>)
    returns (j: nat)
    requires Filled(a[..], written) && i == |written|
    requires |WithLastOptions(written, inst)| <= a.Length
    modifies a
    ensures Filled(a[..], WithLastOptions(written, inst)) && j == |WithLastOptions(written, inst)|
  {
    ghost var w := written;
    j := i;
    j := PutFlag(a, j, "--active-links", On(inst.activeLinks), w);
    w := w + Flag("--active-links", On(inst.activeLinks));
    j := PutValue(a, j, "-e", inst.cmd, w);
    w := w + Value("-e", inst.cmd);
    j := PutFlag(a, j, "-m", On(inst.videoMute), w);
    w := w + Flag("-m", On(inst.videoMute));
    j := PutFlag(a, j, "-c", On(inst.cursorBlink), w);
    w := w + Flag("-c", On(inst.cursorBlink));
    j := PutFlag(a, j, "-G", On(inst.visualBell), w);
    w := w + Flag("-G", On(inst.visualBell));
  }

  /** The rebuilt argv: nargc entries counted, nargc + 1 allocated, the
      arguments written from the start in order, and every entry after them
      (at least the last one) still NULL. */
  method RebuildArgv(inst: Instance, argv0: string)
    returns (nargv: array<Option<string>>, nargc: nat)
    ensures fresh(nargv) && nargv.Length == nargc + 1
    ensures nargc == |Arguments(inst, argv0)| + UnsetTriStates(inst)
    ensures Filled(nargv[..], Arguments(inst, argv0))
  {
    nargc := CountArguments(inst, argv0);
    nargv := new Option<string>[nargc + 1](_ => None);
    nargv[0] := Some(argv0);
    ghost var w := [argv0];
    var i := 1;
    i := FillValueOptions(nargv, i, inst, w);
    w := WithValueOptions(w, inst);
    i := FillLayoutOptions(nargv, i, inst, w);
    w := WithLayoutOptions(w, inst);
    i := FillWindowSwitches(nargv, i, inst, w);
    w := WithWindowSwitches(w, inst);
    i := FillWindowHints(nargv, i, inst, w);
    w := WithWindowHints(w, inst);
    i := FillLastOptions(nargv, i, inst, w);
  }
}
