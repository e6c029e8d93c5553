# Terminology start-up logic and backlog ring, in Dafny

This project models two sequential pieces of the terminal emulator
terminology.

**The scrollback ring** (`src/bin/backlog.h`). A terminal saves the rows that
scroll off the screen in an array `back` of `backsize` slots, with a cursor
`backpos`. `BACKLOG_ROW_GET` maps a backward offset to a slot. The code that
writes rows is not part of this model. The model assumes that rows are
written at the cursor, which then advances. Under that assumption the cursor
is the next slot to write, and offset 0 holds the newest saved row. The module `Backlog`
has two parts:
- the index expression as a function, with lemmas about it;
- a `Ring` class that keeps the array, the size and the cursor. Its ghost
  `rows` lists the slots by offset: newest first, if rows are written at
  the cursor. The class also has the
  read and write-then-advance operations that the index contract supports.

**The command-line logic of `src/bin/main.c`**:
- `Geometry`: the `-g` option. This is a cascade of nine `sscanf` formats
  that stores the fields it converts, followed by the size defaults. It also
  covers the inverse: the geometry text that `main_ipc_new` prints. This is
  the handler of the process serving IPC, and it prints the text for an
  instance another process sent it.
- `IpcArgs`: the argument vector that `main_ipc_new` rebuilds from a received
  instance. It is installed as the application's arguments while that window
  is created, and the old ones are restored afterwards. The code first counts
  the arguments, then allocates `nargc + 1` NULL entries, then writes them in
  a fixed order.
- `Configure`: `_set_instance_theme` and `_configure_instance`. This covers
  the theme-name normalisation, the `NAME/SIZE` font split, the bitmap-font
  prefix match, and the tri-state switches, where `0xff` means unset.
- `Startup`: the `-e` command assembly and the `-S` split-string
  interpreter.
- `Scanf`: the C library pieces those modules rely on. These are `%i` as
  `sscanf` reads it and as `snprintf` prints it, plus `atoi` and `strchr`.
- `Types`: the shared records, `Ipc_Instance` and `Config`.

The C code changes `Ipc_Instance` and `Config` through pointers. The model
passes them in and returns them as values, because nothing in the modelled
code aliases them. The argument vector is an `array` filled through an
advancing index, as in the source. `%i` follows the C standard: it skips white
space, takes an optional sign, and detects the base, so a `0x` prefix means
hexadecimal and a leading `0` means octal. Integers are unbounded.

## Model

| member | source | states |
|---|---|---|
| Backlog.RowSlot | src/bin/backlog.h:27-28 | For a non-empty ring, a cursor inside it and an offset inside it, the slot lies in `[0, backsize)`. `backsize = 0` is excluded, since the expression divides by it. |
| Backlog.RowSlotUnsigned | src/bin/backlog.h:27-28 | The expression as C evaluates it, with size_t operands wrapping modulo 2^64. The result is still a slot of the array. |
| Backlog.UnsignedAgrees | src/bin/backlog.h:27-28 | For every offset inside the ring the unsigned computation does not wrap, and it gives the same slot as the mathematical one. |
| Backlog.UnsignedWraps | src/bin/backlog.h:27-28 | Past `backsize - 1 + backpos` the unsigned difference wraps. In a ring of 5 with the cursor at 0, offset 6 reaches slot 4, not the slot of offset 1. |
| Backlog.RowSlotCases | src/bin/backlog.h:27-28 | The slot is counted back from the one before the cursor, wrapping once past slot 0. |
| Backlog.NewestSlot | src/bin/backlog.h:27-28 | Offset 0 is the slot just before the cursor, or the last slot when the cursor is 0. So if rows are written at the cursor, the cursor is the next write position. |
| Backlog.OldestSlot | src/bin/backlog.h:27-28 | Offset `backsize - 1` is the cursor's own slot. So if rows are written at the cursor, the oldest row is the one the next write replaces. |
| Backlog.RowSlotInjective | src/bin/backlog.h:27-28 | Distinct offsets address distinct slots. |
| Backlog.RowSlotBijective | src/bin/backlog.h:27-28 | The offset-to-slot map is its own inverse: the slot of the slot of y is y. Together with injectivity, every slot is addressed by exactly one offset. |
| Backlog.AdvanceNewest | src/bin/backlog.h:27-28 | After the cursor advances, the slot just written is offset 0. |
| Backlog.AdvanceShifts | src/bin/backlog.h:27-28 | After the cursor advances, the row that was at offset y is at offset y + 1. |
| Backlog.Ring.RowGet | src/bin/backlog.h:27-28 | Reading offset y through the macro's slot gives the row at offset y. That is the y-th newest row if rows are written at the cursor. The cursor comes from the same ring as the array and its size. |
| Backlog.Ring.Push | src/bin/backlog.h:27-28 | The row goes into slot `old(backpos)` and every other slot is unchanged. The cursor becomes `(old(backpos) + 1) % backsize`. The ring stays valid, and its rows become the new row followed by the old rows minus the oldest. |
| Backlog.Ring.constructor | src/bin/backlog.h:20 | A valid ring of `size > 0` slots, as `termpty_backlog_size_set` creates one. Its body is not part of this model, so the initial state is the model's own choice: every slot empty and the cursor at 0. |
| Geometry.CascadeShape | src/bin/main.c:980-1033 | The four sized formats store w, h, x and y and set both `pos` and `size_set`. `%ix%i` stores w and h and sets only `size_set`. The four position formats store x and y and set only `pos`. |
| Geometry.TryPattern | src/bin/main.c:982-994 | One branch of the cascade. The fields sscanf converted are stored even when the format fails. Only a full count negates the coordinates written after `-` and sets `pos`. |
| Geometry.ParseGeometry | src/bin/main.c:980-1047 | The placement is the one the cascade specification gives. The first format with a full count wins, stores from failed formats persist, and without a size w×h becomes `cg_width`×`cg_height` under `custom_geometry`, otherwise 80×24. |
| Geometry.GeometryText | src/bin/main.c:284-331 | No `-g` is written exactly when there is no position and no positive dimension. Without `pos` the text is `WxH`. With `pos`, it is `WxH` followed by the position when w > 0 and h > 0, and the position alone otherwise. Each coordinate is preceded by its sign: `+` written for a non-negative one, `%i`'s own `-` for a negative one. |
| Geometry.PositionedRoundTrip | src/bin/main.c:290-310 | For w, h > 0 with a position, parsing the forwarded text gives back w, h, x and y with `pos` set, whatever the receiving instance held. |
| Geometry.PositionOnlyRoundTrip | src/bin/main.c:311-330 | A position without a positive size comes back as that position with `pos` set. The size falls to the defaults. |
| Geometry.SizeOnlyRoundTrip | src/bin/main.c:286-287 | A size without a position comes back as that size, for a non-zero width. |
| Geometry.ZeroWidthMisread | src/bin/main.c:286-287 | Width 0 and height 24 are printed as "0x24". `%i` reads that as a hexadecimal number, so no format matches and the size falls to the defaults. |
| Scanf.ScanFormatted | src/bin/main.c:982-983 | `%i` reading a printed `%i` item gives back its value and stops right after it. This holds when what follows is not a digit and, after a printed 0, not an `x` or `X` (`Delimits`). Otherwise the 0 would start a hexadecimal prefix. |
| Scanf.ScanSigned | src/bin/main.c:988-989 | `%i` reading an explicit sign followed by a printed magnitude gives the signed value and stops right after the magnitude. This holds when what follows is not a digit, an `x` or an `X`. |
| Scanf.AtoiFormatted | src/bin/main.c:85 | `atoi` reads back what `%i` printed. |
| Scanf.DecimalDigitsValue | src/bin/main.c:85 | The printed decimal digits of n have the value n. |
| IpcArgs.ArgumentsLength | src/bin/main.c:237-397 | The rebuilt command line has 1 entry for argv[0], 2 for each given value option, the command and the geometry, and 1 for each switch on, counting a tri-state only when it is set and non-zero. |
| IpcArgs.CountedTriState | src/bin/main.c:217-230 | A tri-state is counted when it is non-zero, which is exactly when it is either written (set and non-zero) or unset (0xff). |
| IpcArgs.CountArguments | src/bin/main.c:207-232 | The count is the number of entries written plus one per unset tri-state, so every fill condition implies its counting condition. |
| IpcArgs.RebuildArgv | src/bin/main.c:207-397 | `nargc + 1` entries are allocated, the arguments are written from the start in order with `-e` before `-m`/`-c`/`-G`, and every entry after them, including `nargv[nargc]`, stays NULL. |
| Configure.ThemeFileName | src/bin/main.c:39-42 | The file name ends in ".edj" and begins with the theme. It equals the theme exactly when the theme already ends in ".edj". |
| Configure.ThemeFileNameIdempotent | src/bin/main.c:39-42 | Normalising a theme name twice is normalising it once. |
| Configure.ThemeIsPath | src/bin/main.c:44-47 | The file name holds a '/' exactly when the theme does. Such a name is used as the path itself. |
| Configure.SetInstanceTheme | src/bin/main.c:36-50 | A given theme becomes the configured path and marks the configuration temporary. Without a theme nothing changes. |
| Configure.FirstMatchIndex | src/bin/main.c:95-113 | The first listed file whose name starts with the font name, ignoring case, and no earlier one. There is no match exactly when the font name is empty or no file matches. |
| Configure.FindBitmapFont | src/bin/main.c:95-117 | The scan over the listing with its `n = -1` sentinel picks the first matching file, and only when one exists. |
| Configure.ApplyFont | src/bin/main.c:75-118 | The font selected is the font request. `NAME/SIZE` takes the name before the first '/', takes the size only when `atoi` of the rest is positive, and clears `bitmap`. A plain name selects the first matching bitmap file and leaves the font alone when none matches. |
| Configure.FontRoundTrip | src/bin/main.c:77-90 | `NAME/SIZE` with a name without '/' and a positive size selects exactly that scalable font and size. |
| Configure.FontRequestIdempotent | src/bin/main.c:75-118 | Requesting the same font twice is requesting it once. |
| Configure.ApplySwitches | src/bin/main.c:123-157 | Each tri-state that is not 0xff overwrites its field. Cursor blink and visual bell are stored inverted, active links becomes 0/1 and is copied to the four link kinds, and every change marks the configuration temporary. |
| Configure.ConfigureInstance | src/bin/main.c:55-158 | The resulting configuration is the specification `Configured`, field by field, with `font_set` set for any given font even when no file matched. |
| Configure.ConfigureOnlyGiven | src/bin/main.c:55-158 | Without any given option the configuration is unchanged, and whenever it changes it is marked temporary. |
| Configure.ConfigureIdempotent | src/bin/main.c:55-158 | Applying the same instance's options a second time changes nothing more. |
| Startup.AssembleCommand | src/bin/main.c:943-972 | With no argument after the options the result is the error naming the last option. With `-S` the first remaining argument is the command and the rest are queued in order. Otherwise all of them are joined with single spaces. |
| Startup.JoinSplitRoundTrip | src/bin/main.c:962-970 | Joining words that hold no space loses nothing: splitting the joined command on its spaces gives the words back. |
| Startup.StartupSplit | src/bin/main.c:628-659 | The loop gives the splits and the remaining queue of the split-string interpretation, and reports whether it ran to the end. |
| Startup.RunQueue | src/bin/main.c:637-649 | The k-th split runs the k-th queued command, or NULL once the queue is empty. The remaining queue is the input minus the commands handed out. |
| Startup.RunTerms | src/bin/main.c:651-652 | Hop counts never decrease: no split targets a terminal named by fewer `term_next_get` hops than an earlier split, or by more hops than taken so far. |
| Startup.RunTargets | src/bin/main.c:637-652 | For a string of `v`, `h` and `-` only, the terminal each split targets is the number of `-` before its `v` or `h`, the hops `term_next_get` took so far. |
| Startup.RunStops | src/bin/main.c:653-658 | Interpretation stops exactly when a character other than `v`, `h` and `-` occurs. |
| Startup.RunComplete | src/bin/main.c:633-659 | A string of `v`, `h` and `-` only gives one split per `v` or `h`, in order, and ends on the terminal reached by all its `-`. |
| Startup.StoppedStays | src/bin/main.c:653-658 | After an invalid character, the rest of the string changes nothing, so the earlier splits are kept. |

## Left out

- The bodies of the backlog operations declared in `src/bin/backlog.h:4-25` (`termpty_save_*`, `termpty_clear_backlog`, `termpty_backlog_free`, `termpty_backlog_size_set`, `termpty_backlog_length`, `termpty_backlog_memory_get`): the implementation file is not part of this model. Eviction, resizing and memory accounting are not modelled.
- Backlog.Ring.Push: writing at `backpos` and then advancing, which makes offset 0 the newest row, is an assumption. The macro is only a read. A writer that fills `BACKLOG_ROW_GET(ty, 0)` and then advances would fit it just as well, with offset 1 as the newest row. A backlog of size 0, which `termpty_backlog_size_set` accepts, is not represented: `Ring` requires a positive size because the macro divides by it.
- `termpty_backlog_lock`/`termpty_backlog_unlock`: a mutex. Concurrency is not modelled.
- The macro reads `ty->backpos` in lower case while its parameter is `Ty`. It compiles wherever some `ty` is in scope, and then reads that terminal's cursor while indexing `Ty`'s array. It is correct only when the `ty` in scope is the terminal passed as `Ty`. `RowSlot` and `Ring.RowGet` always take the cursor from the same ring as the array and its size, so they model only that correct use.
- Row contents (`Termsave`, cells and widths): a row is an opaque value `T`.
- Multi-instance IPC (`_start_multi`, `_instance_add_waiter`, `_instance_sleep`), threads, `sleep`, `execv` and sockets: concurrency and the operating system.
- `ecore_getopt_parse` and the option table, `_translate_options` (gettext) and `_check_multisense` (audio): library calls. The model starts from the parsed instance and the index of the first unparsed argument.
- `--scale`: floating point.
- `config_compute_color_scheme`, `eina_stringshare_replace`, `putenv`/`getenv`/`unsetenv` (including `DESKTOP_STARTUP_ID`), and `ecore_app_args_get`/`set`: foreign calls. `ConfigureInstance` records only the colour scheme's name. `RebuildArgv` takes argv[0] as a parameter and returns the vector and its count.
- `ecore_file_ls` and `theme_path_get`: the font directory listing is an input sequence, and the theme lookup is an uninterpreted function parameter.
- Window and terminal creation, Evas/Elementary calls, the split operations themselves, and the screen-size adjustment of negative coordinates: UI glue. `StartupSplit` records each split as an action on the terminal reached by `term_next_get`, instead of performing it. An invalid `-S` character jumps to the end of `_start` (`src/bin/main.c:657`). That also skips the window move for `pos`, the `nowm` focus, `controls_init`, the scale wizard and the reset of `terminology_starting_up` (`src/bin/main.c:661-679`). The model's only trace of this is `complete == false`.
- The `ERR`/`CRITICAL` log messages: output. The `-e` error is modelled as the `MissingArgument` outcome. The program then ends with `EXIT_SUCCESS`.
- A `calloc` failure in `main_ipc_new`: allocation is assumed to succeed.
- Fixed buffer sizes (`PATH_MAX`, the 256-byte `geom` buffer, the 4096-byte font directory path): truncation by `snprintf`/`eina_strlcpy` is not modelled, and strings are unbounded.
- Scanf.ScanFormatted: integers are unbounded, so the `int` overflow of `%i`, `atoi` and the negation of `INT_MIN` is not modelled. The round trips hold for all mathematical integers.
- Scanf.Sscanf: it does not tell the end-of-input `EOF` return apart from a count of 0. The cascade compares the count only with the full count, so either value fails.
- Geometry.SizeOnlyRoundTrip: excludes a width of 0. Such a text begins with "0x", which `%i` reads as hexadecimal (see `ZeroWidthMisread`).
- IpcArgs.RebuildArgv: the source's `-e cmd` is written before `-m`, `-c` and `-G`, although getopt stops at `-e`. The model keeps that order as written and does not model the receiving parse.
- IpcArgs.CountArguments: an unset tri-state (0xff) is counted but not written. The model states the over-count exactly, and the extra entries stay NULL inside `nargc`. What `ecore_app_args_set` then does with them is not modelled.
