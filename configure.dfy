/** How a window instance's command-line options are applied to its
    configuration: _set_instance_theme and _configure_instance in
    src/bin/main.c, with the font `NAME/SIZE` split and the bitmap-font
    lookup. The directory listing of the fonts directory is an input
    sequence, and theme_path_get is a function parameter. */
module Configure {
  import opened Types
  import opened Scanf

  // ---------------------------------------------------------------------
  // Theme names

  predicate HasSuffix(s: string, suffix: string)
  {
    |suffix| <= |s| && s[|s| - |suffix|..] == suffix
  }

  /** The theme file name: the name itself when it already ends in ".edj",
      otherwise the name with ".edj" appended. */
  function ThemeFileName(theme: string): (r: string)
    ensures HasSuffix(r, ".edj")
    ensures |theme| <= |r| && r[..|theme|] == theme
    ensures HasSuffix(theme, ".edj") <==> r == theme
  {
    if HasSuffix(theme, ".edj") then theme
    else
      var r := theme + ".edj";
      assert r[|r| - 4..] == ".edj";
      assert r[..|theme|] == theme;
      r
  }

  /** The path stored in the configuration: a file name holding a '/' is
      used as it is, any other is looked up with `themePathGet`. */
  function ThemePath(theme: string, themePathGet: string -> string): string
  {
    var name := ThemeFileName(theme);
    if '/' in name then name else themePathGet(name)
  }

  /** Normalising twice is normalising once. */
  lemma ThemeFileNameIdempotent(theme: string)
    ensures ThemeFileName(ThemeFileName(theme)) == ThemeFileName(theme)
  {
  }

  /** Appending ".edj" adds no '/', so a name is taken as a path exactly
      when the option held a '/'; such a path does not depend on the lookup. */
  lemma ThemeIsPath(theme: string, themePathGet: string -> string)
    ensures '/' in ThemeFileName(theme) <==> '/' in theme
    ensures '/' in theme ==> ThemePath(theme, themePathGet) == ThemeFileName(theme)
  {
    var r := ThemeFileName(theme);
    if !HasSuffix(theme, ".edj") {
      assert r == theme + ".edj";
      if '/' in r {
        var i :| 0 <= i < |r| && r[i] == '/';
        assert i < |theme| && theme[i] == '/';
      }
    }
    if '/' in theme {
      var i :| 0 <= i < |theme| && theme[i] == '/';
      assert r[i] == '/';
    }
  }

  // ---------------------------------------------------------------------
  // Fonts

  /** tolower in the C locale. */
  function ToLower(c: char): char
  {
    if 'A' <= c <= 'Z' then (c as int + 32) as char else c
  }

  /** strncasecmp(file, font, strlen(font)) == 0: the file name starts with
      the font name, ignoring ASCII case. A shorter file name fails at its
      terminating NUL. */
  predicate MatchesCI(file: string, font: string)
  {
    |font| <= |file| && forall i :: 0 <= i < |font| ==> ToLower(file[i]) == ToLower(font[i])
  }

  /** The position of the first listed file that matches a non-empty font
      name, if any. */
  function FirstMatchIndex(files: seq<string>, font: string): (r: Option<nat>)
    ensures r.Some? ==> r.value < |files| && MatchesCI(files[r.value], font) &&
                        forall j :: 0 <= j < r.value ==> !MatchesCI(files[j], font)
    ensures r.None? <==> (|font| == 0 || forall j :: 0 <= j < |files| ==> !MatchesCI(files[j], font))
    ensures r.Some? ==> |font| > 0
  {
    if |font| == 0 || files == [] then None
    else
      var m := FirstMatchIndex(files[..|files| - 1], font);
      if m.Some? then m
      else if MatchesCI(files[|files| - 1], font) then Some(|files| - 1)
      else None
  }

  /** The bitmap-font scan of _configure_instance: every listed file is
      visited, `n` holds the font name's length until a file matches and -1
      after, so only the first match is taken. */
  method FindBitmapFont(files: seq<string>, font: string) returns (found: Option<string>)
    ensures found.Some? <==> FirstMatchIndex(files, font).Some?
    ensures found.Some? ==> found.value == files[FirstMatchIndex(files, font).value]
  {
    var n: int := |font|;
    found := None;
    var i := 0;
    while i < |files|
      invariant 0 <= i <= |files|
      invariant var m := FirstMatchIndex(files[..i], font);
                (found.Some? <==> m.Some?) && (found.Some? ==> found.value == files[m.value])
      invariant found.Some? <==> n == -1
      invariant found.None? ==> n == |font|
    {
      assert files[..i + 1][..i] == files[..i];
      if n > 0 {
        if MatchesCI(files[i], font) {
          n := -1;
          found := Some(files[i]);
        }
      }
      i := i + 1;
    }
    assert files[..i] == files;
  }

  /** The font a `-f` option selects, starting from the configured one:
      `NAME/SIZE` names the font before the first '/', takes the size only
      when atoi of the rest is positive, and clears `bitmap`; a plain name
      selects the first matching bitmap font file, or leaves the font as it
      was when none matches. */
  function FontRequest(font: string, cur: Font, files: seq<string>): Font
  {
    if '/' in font then
      var i := IndexOf(font, '/');
      var sz := Atoi(font[i + 1..]);
      Font(Some(font[..i]), if sz > 0 then sz else cur.size, false)
    else
      match FirstMatchIndex(files, font)
      case Some(k) => cur.(name := Some(files[k]), bitmap := true)
      case None => cur
  }

  /** A font name without '/' and a positive size, written `NAME/SIZE`,
      select exactly that scalable font. */
  lemma FontRoundTrip(name: string, size: int, cur: Font, files: seq<string>)
    requires '/' !in name && size > 0
    ensures FontRequest(name + "/" + FormatInt(size), cur, files) == Font(Some(name), size, false)
  {
    var font := name + "/" + FormatInt(size);
    assert font[|name|] == '/';
    var i := IndexOf(font, '/');
    assert forall j :: 0 <= j < |name| ==> font[j] == name[j];
    assert i == |name|;
    assert font[..i] == name;
    assert font[i + 1..] == FormatInt(size);
    AtoiFormatted(size);
  }

  // ---------------------------------------------------------------------
  // _configure_instance

  /** The options that make _configure_instance change the configuration:
      a string that was given, a tri-state that is not unset, or a set
      `xterm_256color`. */
  predicate Given(inst: Instance)
  {
    inst.theme.Some? || inst.colorscheme.Some? || inst.background.Some? || inst.font.Some? ||
    SwitchGiven(inst)
  }

  /** _set_instance_theme: a given theme becomes the configured theme path
      and marks the configuration temporary. */
  method SetInstanceTheme(theme: Option<string>, config: Config, themePathGet: string -> string)
    returns (c: Config)
    ensures c == config.(theme := if theme.Some? then Some(ThemePath(theme.value, themePathGet))
                                  else config.theme,
                         temporary := config.temporary || theme.Some?)
  {
    if theme.None? {
      return config;
    }
    var themeName := ThemeFileName(theme.value);
    var themePath;
    if '/' in themeName {
      themePath := themeName;
    } else {
      themePath := themePathGet(themeName);
    }
    c := config.(theme := Some(themePath), temporary := true);
  }

  /** The `-f` block of _configure_instance. */
  method ApplyFont(font: string, cur: Font, fontFiles: seq<string>) returns (f: Font)
    ensures f == FontRequest(font, cur, fontFiles)
  {
    f := cur;
    if '/' in font {
      var p := IndexOf(font, '/');
      var fname := font[..p];
      var sz := Atoi(font[p + 1..]);
      if sz > 0 {
        f := f.(size := sz);
      }
      f := f.(name := Some(fname), bitmap := false);
    } else {
      var found := FindBitmapFont(fontFiles, font);
      if found.Some? {
        f := f.(name := found, bitmap := true);
      }
    }
  }

  /** The configuration _configure_instance leaves, field by field: each
      given option overwrites its field, cursor blink and visual bell are
      stored inverted, active links becomes a 0/1 value copied to every kind
      of link, `font_set` follows a given font whether or not a file matched,
      and any given option marks the configuration temporary. */
  function Configured(inst: Instance, config: Config, fontFiles: seq<string>,
                      themePathGet: string -> string): Config
  {
    var links := if IsSet(inst.activeLinks) then inst.activeLinks != 0 else config.activeLinks;
    Config(
      theme := if inst.theme.Some? then Some(ThemePath(inst.theme.value, themePathGet))
               else config.theme,
      colorSchemeName := if inst.colorscheme.Some? then inst.colorscheme else config.colorSchemeName,
      background := if inst.background.Some? then inst.background else config.background,
      font := if inst.font.Some? then FontRequest(inst.font.value, config.font, fontFiles)
              else config.font,
      fontSet := config.fontSet || inst.font.Some?,
      loginShell := if IsSet(inst.loginShell) then inst.loginShell else config.loginShell,
      xterm256color := config.xterm256color || inst.xterm256color,
      mute := if IsSet(inst.videoMute) then inst.videoMute else config.mute,
      disableCursorBlink := if IsSet(inst.cursorBlink) then inst.cursorBlink == 0
                            else config.disableCursorBlink,
      disableVisualBell := if IsSet(inst.visualBell) then inst.visualBell == 0
                           else config.disableVisualBell,
      activeLinks := links,
      activeLinksEmail := if IsSet(inst.activeLinks) then links else config.activeLinksEmail,
      activeLinksFile := if IsSet(inst.activeLinks) then links else config.activeLinksFile,
      activeLinksUrl := if IsSet(inst.activeLinks) then links else config.activeLinksUrl,
      activeLinksEscape := if IsSet(inst.activeLinks) then links else config.activeLinksEscape,
      temporary := config.temporary || Given(inst),
      customGeometry := config.customGeometry,
      cgWidth := config.cgWidth,
      cgHeight := config.cgHeight)
  }

  /** _configure_instance, one option after the other. */
  method ConfigureInstance(inst: Instance, config: Config, fontFiles: seq<string>,
                           themePathGet: string -> string)
    returns (c: Config)
    ensures c == Configured(inst, config, fontFiles, themePathGet)
  {
    c := SetInstanceTheme(inst.theme, config, themePathGet);
    c := SetColorScheme(inst.colorscheme, c);
    c := SetBackground(inst.background, c);
    c := SetFont(inst.font, c, fontFiles);
    c := ApplySwitches(inst, c);
  }

  /** The switches handled after the font: each given one overwrites its
      field (cursor blink and visual bell inverted, active links as a 0/1
      value copied to every kind of link) and marks the configuration
      temporary. */
  method ApplySwitches(inst: Instance, config: Config) returns (c: Config)
    ensures var links := if IsSet(inst.activeLinks) then inst.activeLinks != 0 else config.activeLinks;
            c == config.(
              loginShell := if IsSet(inst.loginShell) then inst.loginShell else config.loginShell,
              xterm256color := config.xterm256color || inst.xterm256color,
              mute := if IsSet(inst.videoMute) then inst.videoMute else config.mute,
              disableCursorBlink := if IsSet(inst.cursorBlink) then inst.cursorBlink == 0
                                    else config.disableCursorBlink,
              disableVisualBell := if IsSet(inst.visualBell) then inst.visualBell == 0
                                   else config.disableVisualBell,
              activeLinks := links,
              activeLinksEmail := if IsSet(inst.activeLinks) then links else config.activeLinksEmail,
              activeLinksFile := if IsSet(inst.activeLinks) then links else config.activeLinksFile,
              activeLinksUrl := if IsSet(inst.activeLinks) then links else config.activeLinksUrl,
              activeLinksEscape := if IsSet(inst.activeLinks) then links else config.activeLinksEscape,
              temporary := config.temporary || SwitchGiven(inst))
  {
    c := SetLoginShell(inst.loginShell, config);
    c := SetXterm256Color(inst.xterm256color, c);
    c := SetMute(inst.videoMute, c);
    c := SetCursorBlink(inst.cursorBlink, c);
    c := SetVisualBell(inst.visualBell, c);
    c := SetActiveLinks(inst.activeLinks, c);
  }

  /** The switches handled after the font: login shell, 256 colours, mute,
      cursor blink, visual bell and active links. */
  predicate SwitchGiven(inst: Instance)
  {
    IsSet(inst.loginShell) || inst.xterm256color || IsSet(inst.videoMute) ||
    IsSet(inst.cursorBlink) || IsSet(inst.visualBell) || IsSet(inst.activeLinks)
  }

  // One step of _configure_instance per option: each touches its own
  // fields and `temporary`, and only when the option was given.

  method SetColorScheme(scheme: Option<string>, config: Config) returns (c: Config)
    ensures c == config.(colorSchemeName := if scheme.Some? then scheme else config.colorSchemeName,
                         temporary := config.temporary || scheme.Some?)
  {
    c := config;
    if scheme.Some? {
      c := c.(colorSchemeName := scheme, temporary := true);
    }
  }

  method SetBackground(background: Option<string>, config: Config) returns (c: Config)
    ensures c == config.(background := if background.Some? then background else config.background,
                         temporary := config.temporary || background.Some?)
  {
    c := config;
    if background.Some? {
      c := c.(background := background, temporary := true);
    }
  }

  method SetFont(font: Option<string>, config: Config, fontFiles: seq<string>) returns (c: Config)
    ensures c == config.(font := if font.Some? then FontRequest(font.value, config.font, fontFiles)
                                 else config.font,
                         fontSet := config.fontSet || font.Some?,
                         temporary := config.temporary || font.Some?)
  {
    c := config;
    if font.Some? {
      var f := ApplyFont(font.value, c.font, fontFiles);
      c := c.(font := f, fontSet := true, temporary := true);
    }
  }

  method SetLoginShell(loginShell: uint8, config: Config) returns (c: Config)
    ensures c == config.(loginShell := if IsSet(loginShell) then loginShell else config.loginShell,
                         temporary := config.temporary || IsSet(loginShell))
  {
    c := config;
    if IsSet(loginShell) {
      c := c.(loginShell := loginShell, temporary := true);
    }
  }

  method SetXterm256Color(xterm256color: bool, config: Config) returns (c: Config)
    ensures c == config.(xterm256color := config.xterm256color || xterm256color,
                         temporary := config.temporary || xterm256color)
  {
    c := config;
    if xterm256color {
      c := c.(xterm256color := true, temporary := true);
    }
  }

  method SetMute(mute: uint8, config: Config) returns (c: Config)
    ensures c == config.(mute := if IsSet(mute) then mute else config.mute,
                         temporary := config.temporary || IsSet(mute))
  {
    c := config;
    if IsSet(mute) {
      c := c.(mute := mute, temporary := true);
    }
  }

  /** The option says whether the cursor blinks; the configuration stores
      whether blinking is disabled. */
  method SetCursorBlink(cursorBlink: uint8, config: Config) returns (c: Config)
    ensures c == config.(disableCursorBlink := if IsSet(cursorBlink) then cursorBlink == 0
                                               else config.disableCursorBlink,
                         temporary := config.temporary || IsSet(cursorBlink))
  {
    c := config;
    if IsSet(cursorBlink) {
      c := c.(disableCursorBlink := cursorBlink == 0, temporary := true);
    }
  }

  /** Stored inverted, as the cursor blink is. */
  method SetVisualBell(visualBell: uint8, config: Config) returns (c: Config)
    ensures c == config.(disableVisualBell := if IsSet(visualBell) then visualBell == 0
                                              else config.disableVisualBell,
                         temporary := config.temporary || IsSet(visualBell))
  {
    c := config;
    if IsSet(visualBell) {
      c := c.(disableVisualBell := visualBell == 0, temporary := true);
    }
  }

  /** Active links becomes a 0/1 value, then copied to every kind of link. */
  method SetActiveLinks(activeLinks: uint8, config: Config) returns (c: Config)
    ensures var links := if IsSet(activeLinks) then activeLinks != 0 else config.activeLinks;
            c == config.(activeLinks := links,
                         activeLinksEmail := if IsSet(activeLinks) then links else config.activeLinksEmail,
                         activeLinksFile := if IsSet(activeLinks) then links else config.activeLinksFile,
                         activeLinksUrl := if IsSet(activeLinks) then links else config.activeLinksUrl,
                         activeLinksEscape := if IsSet(activeLinks) then links else config.activeLinksEscape,
                         temporary := config.temporary || IsSet(activeLinks))
  {
    c := config;
    if IsSet(activeLinks) {
      c := c.(activeLinks := activeLinks != 0);
      c := c.(activeLinksEmail := c.activeLinks, activeLinksFile := c.activeLinks,
              activeLinksUrl := c.activeLinks, activeLinksEscape := c.activeLinks,
              temporary := true);
    }
  }

  /** Without any given option the configuration is left exactly as it was;
      and whenever it changes, it is marked temporary. */
  lemma ConfigureOnlyGiven(inst: Instance, config: Config, fontFiles: seq<string>,
                           themePathGet: string -> string)
    ensures !Given(inst) ==> Configured(inst, config, fontFiles, themePathGet) == config
    ensures Configured(inst, config, fontFiles, themePathGet) != config ==>
            Configured(inst, config, fontFiles, themePathGet).temporary
  {
  }

  /** Selecting the same font twice is selecting it once. */
  lemma FontRequestIdempotent(font: string, cur: Font, files: seq<string>)
    ensures FontRequest(font, FontRequest(font, cur, files), files) == FontRequest(font, cur, files)
  {
  }

  /** Applying the same options a second time changes nothing more. */
  lemma ConfigureIdempotent(inst: Instance, config: Config, fontFiles: seq<string>,
                            themePathGet: string -> string)
    ensures var once := Configured(inst, config, fontFiles, themePathGet);
            Configured(inst, once, fontFiles, themePathGet) == once
  {
    if inst.font.Some? {
      FontRequestIdempotent(inst.font.value, config.font, fontFiles);
    }
  }
}
