/** The `-g WxH+X+Y` option: the cascade of sscanf patterns in elm_main that
    reads it, the size defaults applied after it, and the string main_ipc_new
    builds to hand an instance's geometry on as a `-g` argument. */
module Geometry {
  import opened Types
  import opened Scanf

  /** The placement fields of an Ipc_Instance. */
  datatype Placement = Placement(w: int, h: int, x: int, y: int, pos: bool)

  datatype Field = W | H | X | Y

  /** One `-g` format of the cascade: the fields its conversions are stored
      into, whether x and y are negated after a full match (the formats
      written with `-` before a coordinate), and the flags a full match sets
      (`pos`, and the local `size_set`). */
  datatype Pattern = Pattern(fmt: string, fields: seq<Field>, negX: bool, negY: bool,
                             setsPos: bool, setsSize: bool)

  /** The nine formats, in the order elm_main tries them. */
  const Cascade: seq<Pattern> := [
    Pattern("%ix%i+%i+%i", [W, H, X, Y], false, false, true, true),
    Pattern("%ix%i-%i+%i", [W, H, X, Y], true, false, true, true),
    Pattern("%ix%i-%i-%i", [W, H, X, Y], true, true, true, true),
    Pattern("%ix%i+%i-%i", [W, H, X, Y], false, true, true, true),
    Pattern("%ix%i", [W, H], false, false, false, true),
    Pattern("+%i+%i", [X, Y], false, false, true, false),
    Pattern("-%i+%i", [X, Y], true, false, true, false),
    Pattern("+%i-%i", [X, Y], false, true, true, false),
    Pattern("-%i-%i", [X, Y], true, true, true, false)
  ]

  /** The fields and flags of the three kinds of format in the cascade. */
  lemma CascadeShape(k: nat)
    requires k < |Cascade|
    ensures k < 4 ==> Cascade[k].fields == [W, H, X, Y] && Cascade[k].setsPos && Cascade[k].setsSize
    ensures k == 4 ==> Cascade[k].fields == [W, H] && !Cascade[k].negX && !Cascade[k].negY &&
                       !Cascade[k].setsPos && Cascade[k].setsSize
    ensures k > 4 ==> Cascade[k].fields == [X, Y] && Cascade[k].setsPos && !Cascade[k].setsSize
  {
  }

  function Store(p: Placement, f: Field, v: int): Placement
  {
    match f
    case W => p.(w := v)
    case H => p.(h := v)
    case X => p.(x := v)
    case Y => p.(y := v)
  }

  /** sscanf's stores: the i-th converted value goes to the i-th field, even
      when a later directive of the same pattern fails. */
  function StoreAll(p: Placement, fields: seq<Field>, vals: seq<int>): Placement
    decreases |vals|
  {
    if vals == [] || fields == [] then p
    else StoreAll(Store(p, fields[0], vals[0]), fields[1..], vals[1..])
  }

  lemma StoreTwo(p: Placement, fields: seq<Field>, a: int, b: int)
    requires |fields| >= 2
    ensures StoreAll(p, fields, [a, b]) == Store(Store(p, fields[0], a), fields[1], b)
  {
    var p1 := Store(p, fields[0], a);
    assert [a, b][1..] == [b];
    assert StoreAll(p, fields, [a, b]) == StoreAll(p1, fields[1..], [b]);
    assert fields[1..][0] == fields[1];
    assert StoreAll(p1, fields[1..], [b]) == StoreAll(Store(p1, fields[1], b), fields[2..], []);
  }

  /** What a full match does after the stores: the negations and `pos`. */
  function Finish(p: Placement, pat: Pattern): Placement
  {
    p.(x := if pat.negX then -p.x else p.x,
       y := if pat.negY then -p.y else p.y,
       pos := p.pos || pat.setsPos)
  }

  /** The cascade from pattern k on: the first pattern that converts all its
      fields wins; every pattern tried keeps the stores it made. Gives the
      placement and `size_set`. */
  function TryFrom(g: string, k: nat, p: Placement): (Placement, bool)
    decreases |Cascade| - k
  {
    if k >= |Cascade| then (p, false)
    else
      var pat := Cascade[k];
      var vals := Sscanf(pat.fmt, g);
      var p' := StoreAll(p, pat.fields, vals);
      if |vals| == |pat.fields| then
        (Finish(p', pat), pat.setsSize)
      else TryFrom(g, k + 1, p')
  }

  /** Applies the size defaults after the cascade: when no pattern set a size,
      w and h become the configured custom geometry, or 80x24. */
  function WithDefaultSize(p: Placement, sizeSet: bool, cfg: Config): Placement
  {
    if sizeSet then p
    else if cfg.customGeometry then p.(w := cfg.cgWidth, h := cfg.cgHeight)
    else p.(w := 80, h := 24)
  }

  /** The placement elm_main ends up with for an optional `-g` argument. */
  function Parsed(geometry: Option<string>, start: Placement, cfg: Config): Placement
  {
    if geometry.None? then WithDefaultSize(start, false, cfg)
    else
      var (p, sizeSet) := TryFrom(geometry.value, 0, start);
      WithDefaultSize(p, sizeSet, cfg)
  }

  /** One branch of elm_main's else-if cascade: sscanf the argument against
      the pattern's format, storing each converted value into its field; if
      every conversion succeeded, negate the coordinates the format writes
      with `-` and set `pos` where the format has a position. */
  method TryPattern(g: string, pat: Pattern, p: Placement)
    returns (inst: Placement, matched: bool)
    ensures var vals := Sscanf(pat.fmt, g);
            matched == (|vals| == |pat.fields|) &&
            inst == (if matched then Finish(StoreAll(p, pat.fields, vals), pat)
                     else StoreAll(p, pat.fields, vals))
  {
    var vals := Sscanf(pat.fmt, g);
    inst := StoreAll(p, pat.fields, vals);
    matched := |vals| == |pat.fields|;
    if matched {
      if pat.negX {
        inst := inst.(x := -inst.x);
      }
      if pat.negY {
        inst := inst.(y := -inst.y);
      }
      if pat.setsPos {
        inst := inst.(pos := true);
      }
    }
  }

  /** elm_main's handling of `-g`: the nine formats tried in order, the first
      that converts all its fields winning, then the size defaults. */
  method ParseGeometry(geometry: Option<string>, start: Placement, cfg: Config)
    returns (inst: Placement)
    ensures inst == Parsed(geometry, start, cfg)
  {
    inst := start;
    var sizeSet := false;
    if geometry.Some? {
      var g := geometry.value;
      var matched;
      label cascade: {
        inst, matched := TryPattern(g, Cascade[0], inst);
        if matched {
          sizeSet := Cascade[0].setsSize;
          break cascade;
        }
        inst, matched := TryPattern(g, Cascade[1], inst);
        if matched {
          sizeSet := Cascade[1].setsSize;
          break cascade;
        }
        inst, matched := TryPattern(g, Cascade[2], inst);
        if matched {
          sizeSet := Cascade[2].setsSize;
          break cascade;
        }
        inst, matched := TryPattern(g, Cascade[3], inst);
        if matched {
          sizeSet := Cascade[3].setsSize;
          break cascade;
        }
        inst, matched := TryPattern(g, Cascade[4], inst);
        if matched {
          sizeSet := Cascade[4].setsSize;
          break cascade;
        }
        inst, matched := TryPattern(g, Cascade[5], inst);
        if matched {
          sizeSet := Cascade[5].setsSize;
          break cascade;
        }
        inst, matched := TryPattern(g, Cascade[6], inst);
        if matched {
          sizeSet := Cascade[6].setsSize;
          break cascade;
        }
        inst, matched := TryPattern(g, Cascade[7], inst);
        if matched {
          sizeSet := Cascade[7].setsSize;
          break cascade;
        }
        inst, matched := TryPattern(g, Cascade[8], inst);
        if matched {
          sizeSet := Cascade[8].setsSize;
          break cascade;
        }
      }
      assert TryFrom(g, 0, start) == (inst, sizeSet);
    }
    if !sizeSet {
      if cfg.customGeometry {
        inst := inst.(w := cfg.cgWidth, h := cfg.cgHeight);
      } else {
        inst := inst.(w := 80, h := 24);
      }
    }
  }

  // ---------------------------------------------------------------------
  // The `-g` value main_ipc_new hands on

  function SignChar(n: int): char { if n < 0 then '-' else '+' }

  function Abs(n: int): nat { if n < 0 then -n else n }

  /** The literal a cascade format writes before a coordinate it negates or
      keeps. */
  function SignOf(negated: bool): char { if negated then '-' else '+' }

  /** Whether main_ipc_new passes a geometry on: a position, or a positive
      width or height. */
  predicate HasGeometry(p: Placement) { p.pos || p.w > 0 || p.h > 0 }

  /** The geometry text main_ipc_new prints with snprintf, or None when it
      passes no `-g` at all (no position and no positive dimension). A
      negative coordinate is printed with `%i` straight after the previous
      field, so its own minus sign separates it. */
  function GeometryText(p: Placement): (r: Option<string>)
    ensures r.None? <==> !HasGeometry(p)
    ensures r.Some? ==>
      r.value == if !p.pos then SizeText(p.w, p.h)
                 else if p.w > 0 && p.h > 0 then SizeText(p.w, p.h) + PositionText(p.x, p.y)
                 else PositionText(p.x, p.y)
  {
    PositionTextShape(p.x, p.y);
    PrefixedPositionShape(SizeText(p.w, p.h), p.x, p.y);
    if !HasGeometry(p) then None
    else if !p.pos then Some(FormatInt(p.w) + "x" + FormatInt(p.h))
    else if p.w > 0 && p.h > 0 then
      if p.x >= 0 then
        if p.y >= 0 then Some(FormatInt(p.w) + "x" + FormatInt(p.h) + "+" + FormatInt(p.x) + "+" + FormatInt(p.y))
        else Some(FormatInt(p.w) + "x" + FormatInt(p.h) + "+" + FormatInt(p.x) + FormatInt(p.y))
      else
        if p.y >= 0 then Some(FormatInt(p.w) + "x" + FormatInt(p.h) + FormatInt(p.x) + "+" + FormatInt(p.y))
        else Some(FormatInt(p.w) + "x" + FormatInt(p.h) + FormatInt(p.x) + FormatInt(p.y))
    else
      if p.x >= 0 then
        if p.y >= 0 then Some("+" + FormatInt(p.x) + "+" + FormatInt(p.y))
        else Some("+" + FormatInt(p.x) + FormatInt(p.y))
      else
        if p.y >= 0 then Some(FormatInt(p.x) + "+" + FormatInt(p.y))
        else Some(FormatInt(p.x) + FormatInt(p.y))
  }

  function SizeText(w: int, h: int): string
  {
    FormatInt(w) + "x" + FormatInt(h)
  }

  /** A position as printed: each coordinate preceded by its sign. */
  function PositionText(x: int, y: int): string
  {
    [SignChar(x)] + FormatInt(Abs(x)) + [SignChar(y)] + FormatInt(Abs(y))
  }

  /** A coordinate printed with an explicit `+` when non-negative, or by
      `%i` alone when negative, is its sign followed by its magnitude. */
  lemma SignedText(n: int)
    ensures (if n >= 0 then "+" + FormatInt(n) else FormatInt(n)) == [SignChar(n)] + FormatInt(Abs(n))
  {
  }

  /** The position part of main_ipc_new's text, as the branch on the signs
      of x and y prints it. */
  lemma PositionTextShape(x: int, y: int)
    ensures PositionText(x, y) ==
      if x >= 0 then
        if y >= 0 then "+" + FormatInt(x) + "+" + FormatInt(y)
        else "+" + FormatInt(x) + FormatInt(y)
      else
        if y >= 0 then FormatInt(x) + "+" + FormatInt(y)
        else FormatInt(x) + FormatInt(y)
  {
    SignedText(x);
    SignedText(y);
  }

  lemma Regroup(sz: string, a: string, b: string, c: string, d: string)
    ensures sz + (a + b + c + d) == sz + a + b + c + d
    ensures sz + (a + b + c) == sz + a + b + c
    ensures sz + (a + b) == sz + a + b
  {
  }

  /** The same, after a size printed in front of it. */
  lemma PrefixedPositionShape(sz: string, x: int, y: int)
    ensures sz + PositionText(x, y) ==
      if x >= 0 then
        if y >= 0 then sz + "+" + FormatInt(x) + "+" + FormatInt(y)
        else sz + "+" + FormatInt(x) + FormatInt(y)
      else
        if y >= 0 then sz + FormatInt(x) + "+" + FormatInt(y)
        else sz + FormatInt(x) + FormatInt(y)
  {
    PositionTextShape(x, y);
    var fx, fy := FormatInt(x), FormatInt(y);
    if x >= 0 && y >= 0 {
      Regroup(sz, "+", fx, "+", fy);
    } else if x >= 0 {
      Regroup(sz, "+", fx, fy, []);
    } else if y >= 0 {
      Regroup(sz, fx, "+", fy, []);
    } else {
      Regroup(sz, fx, fy, [], []);
    }
  }

  // ---------------------------------------------------------------------
  // The cascade formats as directives

  /** A sized format `%ix%i<a>%i<b>%i` as directives. */
  lemma SizedFormat(a: char, b: char)
    requires a != '%' && b != '%'
    ensures Directives("%ix%i" + [a] + "%i" + [b] + "%i") ==
      [Conversion, Literal('x'), Conversion] + [Literal(a), Conversion, Literal(b), Conversion]
  {
    var pf := [a] + "%i" + [b] + "%i";
    SizedRegroup(pf, a, b);
    PositionFormat(a, b);
    DirectivesConversion(pf);
    DirectivesLiteral('x', "%i" + pf);
    DirectivesConversion(['x'] + ("%i" + pf));
    DirectiveRegroup(Directives(pf));
  }

  lemma SizedRegroup(pf: string, a: char, b: char)
    requires pf == [a] + "%i" + [b] + "%i"
    ensures "%ix%i" + [a] + "%i" + [b] + "%i" == "%i" + (['x'] + ("%i" + pf))
  {
  }

  lemma DirectiveRegroup(tail: seq<Directive>)
    ensures [Conversion] + ([Literal('x')] + ([Conversion] + tail)) ==
            [Conversion, Literal('x'), Conversion] + tail
  {
  }

  /** A position format `<a>%i<b>%i` as directives. */
  lemma PositionFormat(a: char, b: char)
    requires a != '%' && b != '%'
    ensures Directives([a] + "%i" + [b] + "%i") == [Literal(a), Conversion, Literal(b), Conversion]
  {
    var r2 := [b] + ("%i" + []);
    assert [a] + "%i" + [b] + "%i" == [a] + ("%i" + r2);
    DirectivesConversion([]);
    DirectivesLiteral(b, "%i" + []);
    DirectivesConversion(r2);
    DirectivesLiteral(a, "%i" + r2);
  }

  /** The signs and positions a sized format reads after its size. */
  function SizedTail(pat: Pattern): seq<Directive>
  {
    [Literal(SignOf(pat.negX)), Conversion, Literal(SignOf(pat.negY)), Conversion]
  }

  lemma SizedDirectives(k: nat)
    requires k < 4
    ensures Directives(Cascade[k].fmt) == [Conversion, Literal('x'), Conversion] + SizedTail(Cascade[k])
  {
    var pat := Cascade[k];
    assert pat.fmt == "%ix%i" + [SignOf(pat.negX)] + "%i" + [SignOf(pat.negY)] + "%i";
    SizedFormat(SignOf(pat.negX), SignOf(pat.negY));
  }

  lemma SizeOnlyDirectives()
    ensures Directives(Cascade[4].fmt) == [Conversion, Literal('x'), Conversion]
  {
    assert Directives("%ix%i") == [Conversion, Literal('x'), Conversion];
  }

  lemma PositionDirectives(k: nat)
    requires 5 <= k < 9
    ensures Directives(Cascade[k].fmt) ==
      [Literal(SignOf(Cascade[k].negX)), Conversion, Literal(SignOf(Cascade[k].negY)), Conversion]
  {
    var pat := Cascade[k];
    assert pat.fmt == [SignOf(pat.negX)] + "%i" + [SignOf(pat.negY)] + "%i";
    PositionFormat(SignOf(pat.negX), SignOf(pat.negY));
  }

  // ---------------------------------------------------------------------
  // sscanf on printed geometry

  /** What `<a>%i<b>%i` converts from a printed position. */
  function PairVals(a: char, b: char, x: int, y: int): seq<int>
  {
    if a != SignChar(x) then []
    else if b != SignChar(y) then [Abs(x) as int]
    else [Abs(x) as int, Abs(y)]
  }

  lemma ScanPosition(a: char, b: char, x: int, y: int)
    ensures ScanDirectives([Literal(a), Conversion, Literal(b), Conversion], PositionText(x, y))
            == PairVals(a, b, x, y)
  {
    var fy := [SignChar(y)] + FormatInt(Abs(y));
    var t := [SignChar(x)] + (FormatInt(Abs(x)) + fy);
    assert PositionText(x, y) == t;
    if a == SignChar(x) {
      assert ScanDirectives([Literal(a), Conversion, Literal(b), Conversion], t) ==
             [Abs(x) as int] + ScanDirectives([Literal(b), Conversion], fy) by {
        ScanLiteralStep([Conversion, Literal(b), Conversion], a, FormatInt(Abs(x)) + fy);
        ScanConversionStep([Literal(b), Conversion], Abs(x), fy);
      }
      ScanSecond(b, y);
    }
  }

  lemma ScanSecond(b: char, y: int)
    ensures ScanDirectives([Literal(b), Conversion], [SignChar(y)] + FormatInt(Abs(y))) ==
            if b == SignChar(y) then [Abs(y) as int] else []
  {
    if b == SignChar(y) {
      ScanLiteralStep([Conversion], b, FormatInt(Abs(y)));
      ScanConversionStep([], Abs(y), []);
      assert FormatInt(Abs(y)) + [] == FormatInt(Abs(y));
    }
  }

  /** A printed size is read back by `%ix%i`, which stops at the position's
      sign or at the end. */
  lemma ScanSize(tail: seq<Directive>, w: int, h: int, rest: string)
    requires w != 0
    requires rest == [] || rest[0] == '+' || rest[0] == '-'
    ensures ScanDirectives([Conversion, Literal('x'), Conversion] + tail, SizeText(w, h) + rest)
            == [w, h] + ScanDirectives(tail, rest)
  {
    SizeRegroup(tail, w, h, rest);
    ScanConversionStep([Literal('x'), Conversion] + tail, w, "x" + (FormatInt(h) + rest));
    ScanHeight(tail, h, rest);
  }

  /** The size format and the size text, split after their first item. */
  lemma SizeRegroup(tail: seq<Directive>, w: int, h: int, rest: string)
    ensures [Conversion, Literal('x'), Conversion] + tail == [Conversion] + ([Literal('x'), Conversion] + tail)
    ensures SizeText(w, h) + rest == FormatInt(w) + ("x" + (FormatInt(h) + rest))
  {
  }

  /** After the width: the `x`, then the height. */
  lemma ScanHeight(tail: seq<Directive>, h: int, rest: string)
    requires rest == [] || rest[0] == '+' || rest[0] == '-'
    ensures ScanDirectives([Literal('x'), Conversion] + tail, "x" + (FormatInt(h) + rest))
            == [h] + ScanDirectives(tail, rest)
  {
    assert [Literal('x'), Conversion] + tail == [Literal('x')] + ([Conversion] + tail);
    ScanLiteralStep([Conversion] + tail, 'x', FormatInt(h) + rest);
    ScanConversionStep(tail, h, rest);
  }

  /** A format that starts with `%ix` reads one value from a printed
      position: the signed x, after which the `x` does not match. */
  lemma ScanSizeAtPosition(tail: seq<Directive>, x: int, y: int)
    ensures |ScanDirectives([Conversion, Literal('x')] + tail, PositionText(x, y))| == 1
  {
    var fy := [SignChar(y)] + FormatInt(Abs(y));
    var s := [SignChar(x)] + FormatInt(Abs(x)) + fy;
    assert PositionText(x, y) == s;
    ScanSigned(SignChar(x), Abs(x), fy);
    var k := 1 + |FormatInt(Abs(x))|;
    assert s[k] == SignChar(y);
    ScanStopsAtX(tail, s, if SignChar(x) == '-' then -(Abs(x) as int) else Abs(x), k);
  }

  /** `%ix` on text whose first item is not followed by an `x` reads that
      item alone. */
  lemma ScanStopsAtX(tail: seq<Directive>, s: string, v: int, k: nat)
    requires ScanInt(s) == Some((v, k)) && k < |s| && s[k] != 'x'
    ensures ScanDirectives([Conversion, Literal('x')] + tail, s) == [v]
  {
    assert [Conversion, Literal('x')] + tail == [Conversion] + ([Literal('x')] + tail);
    ScanConversionAt([Literal('x')] + tail, s, v, k);
    ScanLiteralMismatch(tail, 'x', s[k..]);
  }

  // ---------------------------------------------------------------------
  // Which format a printed geometry matches

  /** The index of the sized format whose signs are those of x and y. */
  function SizedIndex(x: int, y: int): nat
  {
    if x >= 0 then (if y >= 0 then 0 else 3) else (if y >= 0 then 1 else 2)
  }

  /** The index of the position-only format whose signs are those of x and y. */
  function PositionIndex(x: int, y: int): nat
  {
    if x >= 0 then (if y >= 0 then 5 else 7) else (if y >= 0 then 6 else 8)
  }

  lemma SignsAt(k: nat, x: int, y: int)
    requires k < 4 || 5 <= k < 9
    ensures (SignOf(Cascade[k].negX) == SignChar(x) && SignOf(Cascade[k].negY) == SignChar(y))
            <==> (k == SizedIndex(x, y) || k == PositionIndex(x, y))
  {
  }

  /** What each sized format reads from a printed size and position. */
  lemma ScanSizedPositioned(k: nat, w: int, h: int, x: int, y: int)
    requires k < 4 && w != 0
    ensures Sscanf(Cascade[k].fmt, SizeText(w, h) + PositionText(x, y)) ==
            [w, h] + PairVals(SignOf(Cascade[k].negX), SignOf(Cascade[k].negY), x, y)
  {
    SizedDirectives(k);
    ScanSize(SizedTail(Cascade[k]), w, h, PositionText(x, y));
    ScanPosition(SignOf(Cascade[k].negX), SignOf(Cascade[k].negY), x, y);
  }

  /** What each format reads from a printed position alone: one value for
      the formats that start with `%ix`, the pair otherwise. */
  lemma ScanPositionOnly(k: nat, x: int, y: int)
    requires k < |Cascade|
    ensures k < 5 ==> |Sscanf(Cascade[k].fmt, PositionText(x, y))| == 1
    ensures k >= 5 ==> Sscanf(Cascade[k].fmt, PositionText(x, y)) ==
                       PairVals(SignOf(Cascade[k].negX), SignOf(Cascade[k].negY), x, y)
  {
    var ds := Directives(Cascade[k].fmt);
    if k < 5 {
      if k < 4 {
        SizedDirectives(k);
      } else {
        SizeOnlyDirectives();
      }
      assert ds == [Conversion, Literal('x')] + ds[2..];
      ScanSizeAtPosition(ds[2..], x, y);
    } else {
      PositionDirectives(k);
      ScanPosition(SignOf(Cascade[k].negX), SignOf(Cascade[k].negY), x, y);
    }
  }

  lemma StoreFour(p: Placement, a: int, b: int, c: int, d: int)
    ensures StoreAll(p, [W, H, X, Y], [a, b, c, d]) == Placement(a, b, c, d, p.pos)
  {
    assert [a, b, c, d][1..] == [b, c, d];
    assert [W, H, X, Y][1..] == [H, X, Y];
    assert [b, c, d][1..] == [c, d];
    assert [H, X, Y][1..] == [X, Y];
    StoreTwo(p.(w := a, h := b), [X, Y], c, d);
  }

  lemma {:induction false} SizedCascade(p: Placement, k: nat, q: Placement)
    requires p.pos && p.w > 0 && p.h > 0
    requires k <= SizedIndex(p.x, p.y)
    ensures TryFrom(SizeText(p.w, p.h) + PositionText(p.x, p.y), k, q) == (p, true)
    decreases SizedIndex(p.x, p.y) - k
  {
    if k == SizedIndex(p.x, p.y) {
      SizedHit(p, q);
    } else {
      var g := SizeText(p.w, p.h) + PositionText(p.x, p.y);
      ScanSizedPositioned(k, p.w, p.h, p.x, p.y);
      CascadeShape(k);
      SignsAt(k, p.x, p.y);
      SizedCascade(p, k + 1, StoreAll(q, Cascade[k].fields, Sscanf(Cascade[k].fmt, g)));
    }
  }

  /** The sized format with the signs of x and y reads all four fields and
      restores the signs. */
  lemma SizedHit(p: Placement, q: Placement)
    requires p.pos && p.w > 0 && p.h > 0
    ensures TryFrom(SizeText(p.w, p.h) + PositionText(p.x, p.y), SizedIndex(p.x, p.y), q) == (p, true)
  {
    SizedHitScan(p);
    SizedHitFinish(p, q.pos);
    StoreFour(q, p.w, p.h, Abs(p.x), Abs(p.y));
  }

  /** It converts the size and the magnitudes of the coordinates. */
  lemma SizedHitScan(p: Placement)
    requires p.w > 0
    ensures Sscanf(Cascade[SizedIndex(p.x, p.y)].fmt, SizeText(p.w, p.h) + PositionText(p.x, p.y))
            == [p.w, p.h, Abs(p.x), Abs(p.y)]
  {
    var k := SizedIndex(p.x, p.y);
    ScanSizedPositioned(k, p.w, p.h, p.x, p.y);
    SignsAt(k, p.x, p.y);
  }

  /** Its negations give the coordinates back their signs. */
  lemma SizedHitFinish(p: Placement, pos: bool)
    requires p.pos
    ensures var pat := Cascade[SizedIndex(p.x, p.y)];
            pat.fields == [W, H, X, Y] && pat.setsSize &&
            Finish(Placement(p.w, p.h, Abs(p.x), Abs(p.y), pos), pat) == p
  {
    CascadeShape(SizedIndex(p.x, p.y));
  }

  lemma {:induction false} PositionCascade(p: Placement, k: nat, q: Placement)
    requires p.pos
    requires k <= PositionIndex(p.x, p.y)
    ensures var (r, sizeSet) := TryFrom(PositionText(p.x, p.y), k, q);
            !sizeSet && r.x == p.x && r.y == p.y && r.pos
    decreases PositionIndex(p.x, p.y) - k
  {
    if k == PositionIndex(p.x, p.y) {
      PositionHit(p, q);
    } else {
      var g := PositionText(p.x, p.y);
      ScanPositionOnly(k, p.x, p.y);
      CascadeShape(k);
      if k >= 5 {
        SignsAt(k, p.x, p.y);
      }
      PositionCascade(p, k + 1, StoreAll(q, Cascade[k].fields, Sscanf(Cascade[k].fmt, g)));
    }
  }

  /** The position-only format with the signs of x and y reads both
      coordinates and restores the signs. */
  lemma PositionHit(p: Placement, q: Placement)
    requires p.pos
    ensures var (r, sizeSet) := TryFrom(PositionText(p.x, p.y), PositionIndex(p.x, p.y), q);
            !sizeSet && r.x == p.x && r.y == p.y && r.pos
  {
    PositionHitScan(p);
    PositionHitFinish(p, q);
    StoreTwo(q, Cascade[PositionIndex(p.x, p.y)].fields, Abs(p.x), Abs(p.y));
  }

  /** It converts the magnitudes of the coordinates. */
  lemma PositionHitScan(p: Placement)
    ensures Sscanf(Cascade[PositionIndex(p.x, p.y)].fmt, PositionText(p.x, p.y)) == [Abs(p.x), Abs(p.y)]
  {
    var k := PositionIndex(p.x, p.y);
    ScanPositionOnly(k, p.x, p.y);
    SignsAt(k, p.x, p.y);
  }

  /** Its negations give the coordinates back their signs, and it sets `pos`
      but no size. */
  lemma PositionHitFinish(p: Placement, q: Placement)
    ensures var pat := Cascade[PositionIndex(p.x, p.y)];
            var r := Finish(q.(x := Abs(p.x), y := Abs(p.y)), pat);
            pat.fields == [X, Y] && !pat.setsSize && r.x == p.x && r.y == p.y && r.pos
  {
    CascadeShape(PositionIndex(p.x, p.y));
  }

  /** What each sized format, and `%ix%i`, reads from a printed size. */
  lemma ScanSizeOnly(k: nat, w: int, h: int)
    requires k <= 4 && w != 0
    ensures Sscanf(Cascade[k].fmt, SizeText(w, h)) == [w, h]
  {
    if k < 4 {
      ScanSizeSized(k, w, h);
    } else {
      SizeOnlyDirectives();
      ScanSizeExact(Cascade[k].fmt, w, h);
    }
  }

  /** `%ix%i` reads a printed size whole. */
  lemma ScanSizeExact(fmt: string, w: int, h: int)
    requires w != 0 && Directives(fmt) == [Conversion, Literal('x'), Conversion]
    ensures Sscanf(fmt, SizeText(w, h)) == [w, h]
  {
    var g := SizeText(w, h);
    assert g + [] == g;
    ScanSize([], w, h, []);
    assert [Conversion, Literal('x'), Conversion] + [] == [Conversion, Literal('x'), Conversion];
  }

  /** A sized and positioned format reads the size from a printed size and
      stops at the missing sign. */
  lemma ScanSizeSized(k: nat, w: int, h: int)
    requires k < 4 && w != 0
    ensures Sscanf(Cascade[k].fmt, SizeText(w, h)) == [w, h]
  {
    SizedDirectives(k);
    ScanSizeThenSign(SignOf(Cascade[k].negX), SignOf(Cascade[k].negY), w, h);
  }

  /** A size followed by a sign directive reads the size and stops at the
      end of the text. */
  lemma ScanSizeThenSign(a: char, b: char, w: int, h: int)
    requires w != 0
    ensures ScanDirectives([Conversion, Literal('x'), Conversion] + [Literal(a), Conversion, Literal(b), Conversion],
                           SizeText(w, h)) == [w, h]
  {
    var g := SizeText(w, h);
    assert g + [] == g;
    ScanSize([Literal(a), Conversion, Literal(b), Conversion], w, h, []);
    ScanLiteralMismatch([Conversion, Literal(b), Conversion], a, []);
  }

  lemma {:induction false} SizeOnlyCascade(w: int, h: int, k: nat, q: Placement)
    requires w != 0
    requires k <= 4
    ensures TryFrom(SizeText(w, h), k, q) == (q.(w := w, h := h), true)
    decreases 4 - k
  {
    ScanSizeOnly(k, w, h);
    CascadeShape(k);
    StoreTwo(q, Cascade[k].fields, w, h);
    if k < 4 {
      SizeOnlyCascade(w, h, k + 1, q.(w := w, h := h));
    }
  }

  // ---------------------------------------------------------------------
  // Round trips: what `-g` main_ipc_new passes reads back through the cascade

  /** A sized and positioned instance comes back exactly. */
  lemma PositionedRoundTrip(p: Placement, start: Placement, cfg: Config)
    requires p.pos && p.w > 0 && p.h > 0
    ensures Parsed(GeometryText(p), start, cfg) == p
  {
    SizedCascade(p, 0, start);
  }

  /** A positioned instance without a positive size comes back with its
      position, and the size falls to the defaults. */
  lemma PositionOnlyRoundTrip(p: Placement, start: Placement, cfg: Config)
    requires p.pos && !(p.w > 0 && p.h > 0)
    ensures Parsed(GeometryText(p), start, cfg) ==
            WithDefaultSize(start.(x := p.x, y := p.y, pos := true), false, cfg)
  {
    PositionCascade(p, 0, start);
  }

  /** A size without a position comes back as that size, over whatever the
      receiving instance had; a zero width is excluded (see ZeroWidthMisread). */
  lemma SizeOnlyRoundTrip(p: Placement, start: Placement, cfg: Config)
    requires !p.pos && (p.w > 0 || p.h > 0) && p.w != 0
    ensures Parsed(GeometryText(p), start, cfg) == start.(w := p.w, h := p.h)
  {
    SizeOnlyCascade(p.w, p.h, 0, start);
  }

  /** `%i` reads "0x24" whole, as the hexadecimal number 0x24. */
  lemma ScanZeroWidth()
    ensures ScanInt("0x24") == Some((36, 4))
  {
    var s := "0x24";
    assert SpaceRun(s) == 0;
    assert s[0..] == s;
    assert s[2..] == "24";
    DigitRunOfDigits("24", [], 16);
    assert "24" + [] == "24";
    assert "24"[..2] == "24";
    assert DigitsValue("24", 16) == 36 by {
      assert "24"[..1] == "2";
      assert "2"[..0] == [];
    }
  }

  /** Every format reads at most the hexadecimal number from "0x24": the
      sized ones store 36 as the width and stop at their `x`, the position
      ones fail on their first sign. */
  lemma ScanZeroWidthText(k: nat)
    requires k < |Cascade|
    ensures Sscanf(Cascade[k].fmt, "0x24") == if k < 5 then [36] else []
  {
    if k < 5 {
      SizedStart(k);
      ScanZeroWidthSized(Directives(Cascade[k].fmt));
    } else {
      PositionDirectives(k);
    }
  }

  /** The sized formats and `%ix%i` begin with a conversion and an `x`. */
  lemma SizedStart(k: nat)
    requires k < 5
    ensures |Directives(Cascade[k].fmt)| >= 2
    ensures Directives(Cascade[k].fmt)[0] == Conversion
    ensures Directives(Cascade[k].fmt)[1] == Literal('x')
  {
    if k < 4 {
      SizedDirectives(k);
    } else {
      SizeOnlyDirectives();
    }
  }

  lemma ScanZeroWidthSized(ds: seq<Directive>)
    requires |ds| >= 2 && ds[0] == Conversion && ds[1] == Literal('x')
    ensures ScanDirectives(ds, "0x24") == [36]
  {
    ScanZeroWidth();
    assert "0x24"[4..] == [];
  }

  lemma {:induction false} ZeroWidthCascade(k: nat, q: Placement)
    requires k <= |Cascade|
    ensures TryFrom("0x24", k, q) == (if k < 5 then q.(w := 36) else q, false)
    decreases |Cascade| - k
  {
    if k < |Cascade| {
      ScanZeroWidthText(k);
      CascadeShape(k);
      var vals := Sscanf(Cascade[k].fmt, "0x24");
      if k < 5 {
        assert StoreAll(q, Cascade[k].fields, vals) == q.(w := 36) by {
          assert vals[1..] == [];
        }
        ZeroWidthCascade(k + 1, q.(w := 36));
      } else {
        ZeroWidthCascade(k + 1, q);
      }
    }
  }

  /** A zero width with a positive height is printed as "0x24", which `%i`
      reads as the hexadecimal number 0x24: no format matches, and the
      receiving side falls back to the default size instead of 0x24. */
  lemma ZeroWidthMisread(start: Placement, cfg: Config)
    ensures GeometryText(Placement(0, 24, 0, 0, false)) == Some("0x24")
    ensures Parsed(Some("0x24"), start, cfg) == WithDefaultSize(start, false, cfg)
  {
    var p := Placement(0, 24, 0, 0, false);
    assert SizeText(0, 24) == "0x24" by {
      assert FormatInt(0) == "0";
      assert FormatInt(24) == "24" by {
        assert DecimalDigits(2) == "2";
      }
    }
    ZeroWidthCascade(0, start);
  }
}
