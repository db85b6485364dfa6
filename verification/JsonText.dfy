/** JSON text, printed and then escaped into a string any number of times.

    A string literal is kept as the literal its grammar (section 7 of RFC 8259) spells:
    a run of plain characters and two-character escapes. `\u00e9` is the escape `\u`
    followed by four plain characters. */
module JsonText {

  datatype Item = Plain(c: char) | Escaped(c: char)

  /** `Held` is a string whose content is the text of another tree, laid out in a style of its own. */
  datatype Json =
    | Scalar(token: string)
    | Str(body: seq<Item>)
    | Arr(elems: seq<Json>)
    | Obj(fields: seq<Field>)
    | Held(inner: Json, layout: Style)

  datatype Field = Field(key: seq<Item>, value: Json)

  /** How many spaces a serialiser puts after a comma and after a colon. */
  datatype Style = Style(afterComma: nat, afterColon: nat)

  const Quote: char := '"'
  const Backslash: char := '\\'

  // ---------------------------------------------------------------------
  // Well-formed trees
  // ---------------------------------------------------------------------

  predicate ValidBody(body: seq<Item>) {
    forall k | 0 <= k < |body| :: body[k].Plain? ==> body[k].c != Quote && body[k].c != Backslash
  }

  /** The literal spells no quote character: neither raw nor as `\"`. */
  predicate QuoteFreeBody(body: seq<Item>) {
    forall k | 0 <= k < |body| :: body[k].c != Quote
  }

  /** Whitespace as Python's `\s` reads it in a str pattern. */
  predicate IsSpace(c: char) {
    || '\U{9}' <= c <= '\U{d}' || '\U{1c}' <= c <= '\U{20}'
    || c == '\U{85}' || c == '\U{a0}' || c == '\U{1680}' || '\U{2000}' <= c <= '\U{200a}'
    || c == '\U{2028}' || c == '\U{2029}' || c == '\U{202f}' || c == '\U{205f}' || c == '\U{3000}'
  }

  /** The same, character by character. */
  const Whitespace: string :=
    "\t\n\U{b}\U{c}\r\U{1c}\U{1d}\U{1e}\U{1f} \U{85}\U{a0}\U{1680}\U{2000}\U{2001}\U{2002}\U{2003}\U{2004}\U{2005}\U{2006}\U{2007}\U{2008}\U{2009}\U{200a}\U{2028}\U{2029}\U{202f}\U{205f}\U{3000}"

  lemma SpacesExactly(c: char)
    ensures IsSpace(c) <==> c in Whitespace
  {
    var w := Whitespace;
    assert w[0] == '\t' && w[4] == '\r' && w[9] == ' ' && |w| == 29;
    if c in w {
      var k :| 0 <= k < |w| && w[k] == c;
    }
  }

  predicate IsStructural(c: char) {
    c == '{' || c == '}' || c == '[' || c == ']' || c == ',' || c == ':'
  }

  /** A number, `true`, `false` or `null`: no space, quote, backslash or structural character. */
  predicate ValidToken(t: string) {
    && |t| > 0
    && forall k | 0 <= k < |t| :: !IsSpace(t[k]) && !IsStructural(t[k]) && t[k] != Quote && t[k] != Backslash
  }

  predicate Valid(j: Json)
    decreases j
  {
    match j
    case Scalar(t) => ValidToken(t)
    case Str(b) => ValidBody(b)
    case Arr(es) => forall k | 0 <= k < |es| :: Valid(es[k])
    case Obj(fs) => forall k | 0 <= k < |fs| :: ValidField(fs[k])
    case Held(t, _) => Valid(t)
  }

  predicate ValidField(f: Field)
    decreases f
  {
    ValidBody(f.key) && Valid(f.value)
  }

  /** No string spells a quote, other than one that holds the text of such a tree. */
  predicate QuoteFree(j: Json)
    decreases j
  {
    match j
    case Scalar(_) => true
    case Str(b) => QuoteFreeBody(b)
    case Arr(es) => forall k | 0 <= k < |es| :: QuoteFree(es[k])
    case Obj(fs) => forall k | 0 <= k < |fs| :: QuoteFreeField(fs[k])
    case Held(t, _) => QuoteFree(t)
  }

  predicate QuoteFreeField(f: Field)
    decreases f
  {
    QuoteFreeBody(f.key) && QuoteFree(f.value)
  }

  // ---------------------------------------------------------------------
  // Printing
  // ---------------------------------------------------------------------

  function Repeat(c: char, n: nat): (s: string)
    ensures |s| == n && forall k | 0 <= k < n :: s[k] == c
  {
    seq(n, _ => c)
  }

  /** One character after `level + 1 == 2^k` has been reached by escaping k times. */
  function LiftChar(c: char, level: nat): string {
    if c == Quote then Repeat(Backslash, level) + [Quote]
    else if c == Backslash then Repeat(Backslash, level + 1)
    else [c]
  }

  function Lift(t: string, level: nat): string {
    if t == [] then [] else LiftChar(t[0], level) + Lift(t[1..], level)
  }

  function ItemText(item: Item): string {
    if item.Plain? then [item.c] else [Backslash] + [item.c]
  }

  function Literal(body: seq<Item>): string {
    if body == [] then [] else ItemText(body[0]) + Literal(body[1..])
  }

  function Delimiter(level: nat): string { Repeat(Backslash, level) + [Quote] }

  function PrintString(body: seq<Item>, level: nat): string {
    Delimiter(level) + Lift(Literal(body), level) + Delimiter(level)
  }

  /** The text of `j` at escaping level `level` (the backslashes before each delimiting quote). */
  function Print(j: Json, level: nat, style: Style): string
    decreases j, 1
  {
    match j
    case Scalar(t) => t
    case Str(b) => PrintString(b, level)
    case Arr(es) => "[" + PrintElems(es, level, style) + "]"
    case Obj(fs) => "{" + PrintFields(fs, level, style) + "}"
    case Held(t, layout) => Delimiter(level) + Print(t, 2 * level + 1, layout) + Delimiter(level)
  }

  function PrintElems(es: seq<Json>, level: nat, style: Style): string
    decreases es, 0
  {
    if es == [] then ""
    else Print(es[0], level, style) + ElemsTail(es, level, style)
  }

  function ElemsTail(es: seq<Json>, level: nat, style: Style): string
    requires es != []
    decreases es[1..], 1
  {
    if |es| == 1 then "" else "," + Repeat(' ', style.afterComma) + PrintElems(es[1..], level, style)
  }

  function FieldHead(key: seq<Item>, level: nat, style: Style): string {
    PrintString(key, level) + ":" + Repeat(' ', style.afterColon)
  }

  function PrintFields(fs: seq<Field>, level: nat, style: Style): string
    decreases fs, 0
  {
    if fs == [] then ""
    else PrintField(fs[0], level, style) + FieldsTail(fs, level, style)
  }

  function PrintField(f: Field, level: nat, style: Style): string
    decreases f, 0
  {
    FieldHead(f.key, level, style) + Print(f.value, level, style)
  }

  function FieldsTail(fs: seq<Field>, level: nat, style: Style): string
    requires fs != []
    decreases fs[1..], 1
  {
    if |fs| == 1 then "" else "," + Repeat(' ', style.afterComma) + PrintFields(fs[1..], level, style)
  }

  // ---------------------------------------------------------------------
  // Escaping a text into a JSON string, once and k times
  // ---------------------------------------------------------------------

  /** The content of the JSON string that holds `t`. */
  function Escape(t: string): string {
    if t == [] then []
    else (if t[0] == Quote || t[0] == Backslash then [Backslash, t[0]] else [t[0]]) + Escape(t[1..])
  }

  function EscapeTimes(t: string, k: nat): string {
    if k == 0 then t else Escape(EscapeTimes(t, k - 1))
  }

  /** The backslashes of a delimiter after k escapings: 0, 1, 3, 7, ... */
  function LevelOf(k: nat): nat {
    if k == 0 then 0 else 2 * LevelOf(k - 1) + 1
  }

  lemma {:induction false} LiftConcat(a: string, b: string, level: nat)
    ensures Lift(a + b, level) == Lift(a, level) + Lift(b, level)
  {
    if a == [] {
      assert a + b == b;
    } else {
      assert (a + b)[1..] == a[1..] + b;
      LiftConcat(a[1..], b, level);
    }
  }

  lemma {:induction false} LiftPlain(t: string, level: nat)
    requires Quote !in t && Backslash !in t
    ensures Lift(t, level) == t
  {
    if t != [] {
      assert t == [t[0]] + t[1..];
      LiftPlain(t[1..], level);
    }
  }

  lemma {:induction false} LiftZero(t: string)
    ensures Lift(t, 0) == t
  {
    if t != [] {
      LiftZero(t[1..]);
      assert LiftChar(t[0], 0) == [t[0]];
      assert t == [t[0]] + t[1..];
    }
  }

  lemma {:induction false} EscapeConcat(a: string, b: string)
    ensures Escape(a + b) == Escape(a) + Escape(b)
  {
    if a == [] {
      assert a + b == b;
    } else {
      assert (a + b)[1..] == a[1..] + b;
      EscapeConcat(a[1..], b);
    }
  }

  lemma {:induction false} EscapeBackslashes(n: nat)
    ensures Escape(Repeat(Backslash, n)) == Repeat(Backslash, 2 * n)
  {
    if n > 0 {
      assert Repeat(Backslash, n)[1..] == Repeat(Backslash, n - 1);
      EscapeBackslashes(n - 1);
      assert [Backslash, Backslash] + Repeat(Backslash, 2 * (n - 1)) == Repeat(Backslash, 2 * n);
    }
  }

  lemma EscapeLiftChar(c: char, level: nat)
    ensures Escape(LiftChar(c, level)) == LiftChar(c, 2 * level + 1)
  {
    if c == Quote {
      EscapeConcat(Repeat(Backslash, level), [Quote]);
      EscapeBackslashes(level);
      assert Escape([Quote]) == [Backslash, Quote];
      assert Repeat(Backslash, 2 * level) + [Backslash, Quote] == Repeat(Backslash, 2 * level + 1) + [Quote];
    } else if c == Backslash {
      EscapeBackslashes(level + 1);
    }
  }

  lemma {:induction false} EscapeLift(t: string, level: nat)
    ensures Escape(Lift(t, level)) == Lift(t, 2 * level + 1)
  {
    if t != [] {
      EscapeConcat(LiftChar(t[0], level), Lift(t[1..], level));
      EscapeLiftChar(t[0], level);
      EscapeLift(t[1..], level);
    }
  }

  /** Lifting what has been escaped once. */
  lemma {:induction false} LiftEscape(t: string, level: nat)
    ensures Lift(Escape(t), level) == Lift(t, 2 * level + 1)
  {
    if t != [] {
      var first := if t[0] == Quote || t[0] == Backslash then [Backslash, t[0]] else [t[0]];
      LiftConcat(first, Escape(t[1..]), level);
      LiftEscape(t[1..], level);
      LiftEscapedChar(t[0], level);
    }
  }

  lemma LiftEscapedChar(c: char, level: nat)
    ensures Lift(if c == Quote || c == Backslash then [Backslash, c] else [c], level) == LiftChar(c, 2 * level + 1)
  {
    if c == Quote || c == Backslash {
      LiftConcat([Backslash], [c], level);
      assert [Backslash] + [c] == [Backslash, c];
      assert Lift([Backslash], level) == Repeat(Backslash, level + 1) + [];
      assert Lift([c], level) == LiftChar(c, level) + [];
      assert Repeat(Backslash, level + 1) + LiftChar(c, level) == LiftChar(c, 2 * level + 1);
    }
  }

  /** The literal that spells a text. */
  function HeldBody(t: string): seq<Item> {
    if t == [] then [] else [if t[0] == Quote || t[0] == Backslash then Escaped(t[0]) else Plain(t[0])] + HeldBody(t[1..])
  }

  lemma {:induction false} HeldBodySpells(t: string)
    ensures Literal(HeldBody(t)) == Escape(t) && ValidBody(HeldBody(t)) && |HeldBody(t)| == |t|
  {
    if t != [] {
      HeldBodySpells(t[1..]);
      assert HeldBody(t)[1..] == HeldBody(t[1..]);
    }
  }

  /** A string that holds a tree is the string of the tree's text, at whatever level it is printed. */
  lemma HeldIsString(t: Json, layout: Style, level: nat, style: Style)
    requires Valid(t)
    ensures Print(Held(t, layout), level, style) == PrintString(HeldBody(Print(t, 0, layout)), level)
  {
    var x := Print(t, 0, layout);
    HeldBodySpells(x);
    LiftEscape(x, level);
    PrintIsLift(t, 2 * level + 1, layout);
  }

  /** Escaping k times has a closed form: every quote gains `LevelOf(k)` backslashes and
      every backslash becomes `LevelOf(k) + 1`. */
  lemma {:induction false} EscapeTimesIsLift(t: string, k: nat)
    ensures EscapeTimes(t, k) == Lift(t, LevelOf(k))
  {
    if k == 0 {
      LiftZero(t);
    } else {
      EscapeTimesIsLift(t, k - 1);
      EscapeLift(t, LevelOf(k - 1));
    }
  }

  lemma LiftStringText(body: seq<Item>, level: nat)
    ensures Lift(PrintString(body, 0), level) == PrintString(body, level)
  {
    var lit := Literal(body);
    LiftZero(lit);
    assert Delimiter(0) == [Quote];
    assert PrintString(body, 0) == [Quote] + lit + [Quote];
    LiftConcat([Quote] + lit, [Quote], level);
    LiftConcat([Quote], lit, level);
    assert Lift([Quote], level) == Delimiter(level);
  }

  /** Printing at a level is printing plainly and then escaping. */
  lemma {:induction false} PrintIsLift(j: Json, level: nat, style: Style)
    requires Valid(j)
    ensures Print(j, level, style) == Lift(Print(j, 0, style), level)
    decreases j, 1
  {
    match j
    case Scalar(t) => LiftPlain(t, level);
    case Str(b) => LiftStringText(b, level);
    case Arr(es) =>
      ElemsAreLift(es, level, style);
      LiftConcat("[" + PrintElems(es, 0, style), "]", level);
      LiftConcat("[", PrintElems(es, 0, style), level);
      LiftPlain("[", level); LiftPlain("]", level);
    case Obj(fs) =>
      FieldsAreLift(fs, level, style);
      LiftConcat("{" + PrintFields(fs, 0, style), "}", level);
      LiftConcat("{", PrintFields(fs, 0, style), level);
      LiftPlain("{", level); LiftPlain("}", level);
    case Held(t, layout) =>
      PrintIsLift(t, 1, layout);
      PrintIsLift(t, 2 * level + 1, layout);
      HeldIsLift(Print(t, 0, layout), level);
  }

  lemma HeldIsLift(x: string, level: nat)
    ensures Lift(Delimiter(0) + Lift(x, 1) + Delimiter(0), level) == Delimiter(level) + Lift(x, 2 * level + 1) + Delimiter(level)
  {
    HeldBodySpells(x);
    LiftStringText(HeldBody(x), level);
    LiftEscape(x, level);
    LiftEscape(x, 0);
    LiftZero(Escape(x));
  }

  lemma {:induction false} ElemsAreLift(es: seq<Json>, level: nat, style: Style)
    requires forall k | 0 <= k < |es| :: Valid(es[k])
    ensures PrintElems(es, level, style) == Lift(PrintElems(es, 0, style), level)
    decreases es, 0
  {
    if es != [] {
      PrintIsLift(es[0], level, style);
      LiftConcat(Print(es[0], 0, style), ElemsTail(es, 0, style), level);
      if |es| > 1 {
        ElemsAreLift(es[1..], level, style);
        var sep := "," + Repeat(' ', style.afterComma);
        LiftPlain(sep, level);
        LiftConcat(sep, PrintElems(es[1..], 0, style), level);
      }
    }
  }

  lemma {:induction false} FieldsAreLift(fs: seq<Field>, level: nat, style: Style)
    requires forall k | 0 <= k < |fs| :: ValidField(fs[k])
    ensures PrintFields(fs, level, style) == Lift(PrintFields(fs, 0, style), level)
    decreases fs, 0
  {
    if fs != [] {
      var f := fs[0];
      PrintIsLift(f.value, level, style);
      FieldHeadIsLift(f.key, level, style);
      LiftConcat(PrintField(f, 0, style), FieldsTail(fs, 0, style), level);
      LiftConcat(FieldHead(f.key, 0, style), Print(f.value, 0, style), level);
      if |fs| > 1 {
        FieldsAreLift(fs[1..], level, style);
        var sep := "," + Repeat(' ', style.afterComma);
        LiftPlain(sep, level);
        LiftConcat(sep, PrintFields(fs[1..], 0, style), level);
      }
    }
  }

  lemma FieldHeadIsLift(key: seq<Item>, level: nat, style: Style)
    ensures FieldHead(key, level, style) == Lift(FieldHead(key, 0, style), level)
  {
    var sep := ":" + Repeat(' ', style.afterColon);
    LiftStringText(key, level);
    LiftPlain(sep, level);
    LiftConcat(PrintString(key, 0), sep, level);
    assert FieldHead(key, 0, style) == PrintString(key, 0) + sep;
    assert FieldHead(key, level, style) == PrintString(key, level) + sep;
  }

  /** The serialised tree, escaped into a string k times, is its text at level `2^k - 1`. */
  lemma PrintedAndEscaped(j: Json, k: nat, style: Style)
    requires Valid(j)
    ensures EscapeTimes(Print(j, 0, style), k) == Print(j, LevelOf(k), style)
  {
    EscapeTimesIsLift(Print(j, 0, style), k);
    PrintIsLift(j, LevelOf(k), style);
  }
}
