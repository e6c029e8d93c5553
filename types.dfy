/** The data handed around by terminology's start-up code (src/bin/main.c):
    the options of one window instance (Ipc_Instance) and the per-window
    configuration they are applied to (Config). */
module Types {

  /** A C pointer that may be NULL. */
  datatype Option<+T> = None | Some(value: T)

  /** An unsigned char, the storage of Eina_Bool. */
  newtype uint8 = x: int | 0 <= x < 256

  /** IPC_INSTANCE_OPT_UNSET: a tri-state option that was not given. */
  const OptUnset: uint8 := 0xff

  /** A tri-state option that was given (its value may still be 0). */
  predicate IsSet(opt: uint8) { opt != OptUnset }

  /** The options of one terminal window, as elm_main collects them from the
      command line and as they travel over IPC to a running instance. */
  datatype Instance = Instance(
    name: Option<string>,
    role: Option<string>,
    title: Option<string>,
    iconName: Option<string>,
    font: Option<string>,
    startupSplit: Option<string>,
    background: Option<string>,
    cd: Option<string>,
    theme: Option<string>,
    colorscheme: Option<string>,
    cmd: Option<string>,
    cmds: seq<string>,
    w: int,
    h: int,
    x: int,
    y: int,
    pos: bool,
    loginShell: uint8,
    activeLinks: uint8,
    videoMute: uint8,
    cursorBlink: uint8,
    visualBell: uint8,
    fullscreen: bool,
    iconic: bool,
    borderless: bool,
    overrideRedirect: bool,
    maximized: bool,
    nowm: bool,
    hold: bool,
    xterm256color: bool)

  datatype Font = Font(name: Option<string>, size: int, bitmap: bool)

  /** The fields of a window's Config that the start-up code reads or writes. */
  datatype Config = Config(
    theme: Option<string>,
    colorSchemeName: Option<string>,
    background: Option<string>,
    font: Font,
    fontSet: bool,
    loginShell: uint8,
    xterm256color: bool,
    mute: uint8,
    disableCursorBlink: bool,
    disableVisualBell: bool,
    activeLinks: bool,
    activeLinksEmail: bool,
    activeLinksFile: bool,
    activeLinksUrl: bool,
    activeLinksEscape: bool,
    temporary: bool,
    customGeometry: bool,
    cgWidth: int,
    cgHeight: int)
}
