/** What the scanner of src/log_pipeline/redaction.py does to printed and escaped JSON. */
module RedactionTheorems {
  import opened Options
  import opened JsonText
  import opened Redaction

  lemma AtSplit(text: string, i: nat, a: string, b: string)
    ensures At(text, i, a + b) <==> At(text, i, a) && At(text, i + |a|, b)
  {
    if At(text, i, a + b) {
      assert text[i..i + |a|] == text[i..i + |a + b|][..|a|];
      assert text[i + |a|..i + |a| + |b|] == text[i..i + |a + b|][|a|..];
    }
    if At(text, i, a) && At(text, i + |a|, b) {
      assert text[i..i + |a + b|] == text[i..i + |a|] + text[i + |a|..i + |a| + |b|];
    }
  }

  lemma AtSplit3(text: string, i: nat, a: string, b: string, c: string)
    ensures At(text, i, a + b + c) <==> At(text, i, a) && At(text, i + |a|, b) && At(text, i + |a| + |b|, c)
  {
    AtSplit(text, i, a + b, c);
    AtSplit(text, i, a, b);
  }

  lemma AtChar(text: string, i: nat, part: string, k: nat)
    requires At(text, i, part) && k < |part|
    ensures text[i + k] == part[k]
  {
    assert text[i + k] == text[i..i + |part|][k];
  }

  // ---------------------------------------------------------------------
  // A string ends at its closing quote
  // ---------------------------------------------------------------------

  function WrapRun(run: nat, level: nat): nat
    requires run <= Period(level)
  {
    if run == Period(level) then 0 else run
  }

  lemma {:induction false} BackslashesInString(text: string, i: nat, run: nat, n: nat, level: nat)
    requires run < Period(level) && run + n <= Period(level) && At(text, i, Repeat(Backslash, n))
    ensures StringEndFrom(text, i, run, level) == StringEndFrom(text, i + n, WrapRun(run + n, level), level)
    decreases n
  {
    if n > 0 {
      AtChar(text, i, Repeat(Backslash, n), 0);
      AtSplit(text, i, [Backslash], Repeat(Backslash, n - 1));
      assert [Backslash] + Repeat(Backslash, n - 1) == Repeat(Backslash, n);
      if n > 1 {
        BackslashesInString(text, i + 1, run + 1, n - 1, level);
      }
    }
  }

  /** After the escaping backslash, the escaped character is passed over too. */
  lemma EscapedInString(text: string, j: nat, c: char, level: nat)
    requires At(text, j, LiftChar(c, level))
    ensures StringEndFrom(text, j, level + 1, level) == StringEndFrom(text, j + |LiftChar(c, level)|, 0, level)
  {
    if c == Backslash {
      BackslashesInString(text, j, level + 1, level + 1, level);
    } else if c == Quote {
      AtSplit(text, j, Repeat(Backslash, level), [Quote]);
      AtChar(text, j + level, [Quote], 0);
      BackslashesInString(text, j, level + 1, level, level);
    } else {
      AtChar(text, j, [c], 0);
    }
  }

  lemma LiftEscaped(c: char, level: nat)
    ensures Lift([Backslash] + [c], level) == Repeat(Backslash, level + 1) + LiftChar(c, level)
  {
    LiftConcat([Backslash], [c], level);
    assert Lift([Backslash], level) == LiftChar(Backslash, level) + [];
    assert Lift([c], level) == LiftChar(c, level) + [];
  }

  /** One item of a literal is passed over, and leaves no pending backslashes. */
  lemma ItemInString(text: string, i: nat, item: Item, level: nat)
    requires ValidBody([item]) && At(text, i, Lift(ItemText(item), level))
    ensures StringEndFrom(text, i, 0, level)
         == StringEndFrom(text, i + |Lift(ItemText(item), level)|, 0, level)
  {
    if item.Plain? {
      assert [item][0] == item;
      LiftPlain([item.c], level);
      AtChar(text, i, [item.c], 0);
    } else {
      LiftEscaped(item.c, level);
      AtSplit(text, i, Repeat(Backslash, level + 1), LiftChar(item.c, level));
      BackslashesInString(text, i, 0, level + 1, level);
      EscapedInString(text, i + level + 1, item.c, level);
    }
  }

  lemma LiftBody(body: seq<Item>, level: nat)
    requires body != []
    ensures Lift(Literal(body), level) == Lift(ItemText(body[0]), level) + Lift(Literal(body[1..]), level)
  {
    LiftConcat(ItemText(body[0]), Literal(body[1..]), level);
  }

  lemma EmptyStringEnds(text: string, i: nat, level: nat)
    requires At(text, i, Delimiter(level))
    ensures StringEndFrom(text, i, 0, level) == i + level + 1
  {
    AtSplit(text, i, Repeat(Backslash, level), [Quote]);
    AtChar(text, i + level, [Quote], 0);
    BackslashesInString(text, i, 0, level, level);
  }

  lemma {:induction false} StringEndsExactly(text: string, i: nat, body: seq<Item>, level: nat)
    requires ValidBody(body)
    requires At(text, i, Lift(Literal(body), level))
    requires At(text, i + |Lift(Literal(body), level)|, Delimiter(level))
    ensures StringEndFrom(text, i, 0, level) == i + |Lift(Literal(body), level)| + level + 1
    decreases |body|
  {
    hide At, StringEndFrom;
    if body == [] {
      EmptyStringEnds(text, i, level);
    } else {
      LiftBody(body, level);
      var a, b := Lift(ItemText(body[0]), level), Lift(Literal(body[1..]), level);
      AtSplit(text, i, a, b);
      ItemInString(text, i, body[0], level);
      StringEndsExactly(text, i + |a|, body[1..], level);
    }
  }

  /** From the first backslash of a printed string, the scanner finds its last quote. */
  lemma PrintedStringEnds(text: string, i: nat, body: seq<Item>, level: nat)
    requires ValidBody(body) && At(text, i, PrintString(body, level))
    ensures i + level < |text| && text[i + level] == Quote
    ensures StringEndFrom(text, i + level + 1, 0, level) == i + |PrintString(body, level)|
  {
    AtSplit3(text, i, Delimiter(level), Lift(Literal(body), level), Delimiter(level));
    AtChar(text, i, Delimiter(level), level);
    StringEndsExactly(text, i + level + 1, body, level);
  }

  // ---------------------------------------------------------------------
  // A container ends at its closing bracket
  // ---------------------------------------------------------------------

  lemma {:induction false} BackslashesInContainer(text: string, i: nat, run: nat, n: nat, depth: int, level: nat)
    requires run + n < Period(level) && At(text, i, Repeat(Backslash, n))
    ensures ContainerEndFrom(text, i, run, depth, level) == ContainerEndFrom(text, i + n, run + n, depth, level)
    decreases n
  {
    if n > 0 {
      AtChar(text, i, Repeat(Backslash, n), 0);
      AtSplit(text, i, [Backslash], Repeat(Backslash, n - 1));
      assert [Backslash] + Repeat(Backslash, n - 1) == Repeat(Backslash, n);
      BackslashesInContainer(text, i + 1, run + 1, n - 1, depth, level);
    }
  }

  lemma StringInContainer(text: string, i: nat, body: seq<Item>, depth: int, level: nat)
    requires ValidBody(body) && At(text, i, PrintString(body, level))
    ensures Passes(text, i, i + |PrintString(body, level)|, depth, level)
  {
    hide Lift, Literal, ValidBody, StringEndFrom;
    PrintedStringEnds(text, i, body, level);
    assert PrintString(body, level) == Repeat(Backslash, level) + ([Quote] + Lift(Literal(body), level) + Delimiter(level));
    AtSplit(text, i, Repeat(Backslash, level), [Quote] + Lift(Literal(body), level) + Delimiter(level));
    BackslashesInContainer(text, i, 0, level, depth, level);
  }

  /** Text with no quote, backslash or bracket in it is passed over. */
  lemma {:induction false} InertInContainer(text: string, i: nat, part: string, depth: int, level: nat)
    requires At(text, i, part)
    requires forall k | 0 <= k < |part| :: part[k] != Quote && part[k] != Backslash && !Opens(part[k]) && !Closes(part[k])
    ensures Passes(text, i, i + |part|, depth, level)
    decreases |part|
  {
    if part != "" {
      AtChar(text, i, part, 0);
      assert part == part[..1] + part[1..];
      AtSplit(text, i, part[..1], part[1..]);
      InertInContainer(text, i + 1, part[1..], depth, level);
    }
  }

  lemma ScalarInContainer(text: string, i: nat, t: string, depth: int, level: nat)
    requires ValidToken(t) && At(text, i, t)
    ensures Passes(text, i, i + |t|, depth, level)
  {
    InertInContainer(text, i, t, depth, level);
  }

  lemma SeparatorInContainer(text: string, i: nat, c: char, spaces: nat, depth: int, level: nat)
    requires (c == ',' || c == ':') && At(text, i, [c] + Repeat(' ', spaces))
    ensures Passes(text, i, i + 1 + spaces, depth, level)
  {
    InertInContainer(text, i, [c] + Repeat(' ', spaces), depth, level);
  }

  /** The scan passes over `text[i..j]` and leaves the depth as it was. */
  ghost predicate Passes(text: string, i: nat, j: nat, depth: int, level: nat) {
    && i <= |text| && j <= |text|
    && ContainerEndFrom(text, i, 0, depth, level) == ContainerEndFrom(text, j, 0, depth, level)
  }

  lemma Bracketed(text: string, i: nat, open: string, inner: string, close: string, depth: int, level: nat)
    requires At(text, i, open + inner + close) && |open| == |close| == 1 && Opens(open[0]) && Closes(close[0])
    requires Passes(text, i + 1, i + 1 + |inner|, depth + 1, level)
    ensures depth != 0 ==> Passes(text, i, i + |inner| + 2, depth, level)
    ensures depth == 0 ==> ContainerEndFrom(text, i, 0, 0, level) == i + |inner| + 2
  {
    AtSplit3(text, i, open, inner, close);
    AtChar(text, i, open, 0);
    AtChar(text, i + 1 + |inner|, close, 0);
  }

  lemma PassesNothing(text: string, i: nat, depth: int, level: nat)
    requires At(text, i, "")
    ensures Passes(text, i, i, depth, level)
  {
  }

  lemma PassesJoin(text: string, i: nat, j: nat, k: nat, depth: int, level: nat)
    requires Passes(text, i, j, depth, level) && Passes(text, j, k, depth, level)
    ensures Passes(text, i, k, depth, level)
  {
  }

  /** Inside a container a whole value is passed over. */
  lemma {:induction false} ValueInContainer(text: string, i: nat, j: Json, depth: int, level: nat, style: Style)
    requires Valid(j) && depth >= 1 && At(text, i, Print(j, level, style))
    ensures Passes(text, i, i + |Print(j, level, style)|, depth, level)
    decreases j, 2
  {
    hide Passes, At, ValidToken, ValidBody;
    match j
    case Scalar(t) => ScalarInContainer(text, i, t, depth, level);
    case Str(b) => StringInContainer(text, i, b, depth, level);
    case Arr(es) => ArrayInContainer(text, i, es, depth, level, style);
    case Obj(fs) => ObjectInContainer(text, i, fs, depth, level, style);
    case Held(t, layout) => HeldInContainer(text, i, t, layout, depth, level, style);
  }

  lemma HeldInContainer(text: string, i: nat, t: Json, layout: Style, depth: int, level: nat, style: Style)
    requires Valid(t) && At(text, i, Print(Held(t, layout), level, style))
    ensures Passes(text, i, i + |Print(Held(t, layout), level, style)|, depth, level)
  {
    hide Print, Valid, At, Passes, PrintString;
    HeldIsString(t, layout, level, style);
    HeldBodySpells(Print(t, 0, layout));
    StringInContainer(text, i, HeldBody(Print(t, 0, layout)), depth, level);
  }

  lemma {:induction false} ArrayInContainer(text: string, i: nat, es: seq<Json>, depth: int, level: nat, style: Style)
    requires depth >= 0 && At(text, i, "[" + PrintElems(es, level, style) + "]")
    requires forall k | 0 <= k < |es| :: Valid(es[k])
    ensures depth != 0 ==> Passes(text, i, i + |PrintElems(es, level, style)| + 2, depth, level)
    ensures depth == 0 ==> ContainerEndFrom(text, i, 0, 0, level) == i + |PrintElems(es, level, style)| + 2
    decreases es, 1
  {
    AtSplit3(text, i, "[", PrintElems(es, level, style), "]");
    ElemsInContainer(text, i + 1, es, depth + 1, level, style);
    Bracketed(text, i, "[", PrintElems(es, level, style), "]", depth, level);
  }

  lemma {:induction false} ObjectInContainer(text: string, i: nat, fs: seq<Field>, depth: int, level: nat, style: Style)
    requires depth >= 0 && At(text, i, "{" + PrintFields(fs, level, style) + "}")
    requires forall k | 0 <= k < |fs| :: ValidField(fs[k])
    ensures depth != 0 ==> Passes(text, i, i + |PrintFields(fs, level, style)| + 2, depth, level)
    ensures depth == 0 ==> ContainerEndFrom(text, i, 0, 0, level) == i + |PrintFields(fs, level, style)| + 2
    decreases fs, 2
  {
    hide Valid, PrintFields;
    AtSplit3(text, i, "{", PrintFields(fs, level, style), "}");
    FieldsInContainer(text, i + 1, fs, depth + 1, level, style);
    Bracketed(text, i, "{", PrintFields(fs, level, style), "}", depth, level);
  }

  lemma {:induction false} ElemsInContainer(text: string, i: nat, es: seq<Json>, depth: int, level: nat, style: Style)
    requires depth >= 1 && At(text, i, PrintElems(es, level, style))
    requires forall k | 0 <= k < |es| :: Valid(es[k])
    ensures Passes(text, i, i + |PrintElems(es, level, style)|, depth, level)
    decreases es, 0
  {
    hide Valid, Passes, At;
    if PrintElems(es, level, style) == "" {
      PassesNothing(text, i, depth, level);
    }
    if es != [] {
      var head := Print(es[0], level, style);
      var j := i + |head|;
      AtSplit(text, i, head, ElemsTail(es, level, style));
      ValueInContainer(text, i, es[0], depth, level, style);
      if |es| > 1 {
        var sep := "," + Repeat(' ', style.afterComma);
        AtSplit(text, j, sep, PrintElems(es[1..], level, style));
        SeparatorInContainer(text, j, ',', style.afterComma, depth, level);
        ElemsInContainer(text, j + |sep|, es[1..], depth, level, style);
        var k := j + |sep| + |PrintElems(es[1..], level, style)|;
        PassesJoin(text, j, j + |sep|, k, depth, level);
        PassesJoin(text, i, j, k, depth, level);
      }
    }
  }

  lemma {:induction false} FieldInContainer(text: string, i: nat, f: Field, depth: int, level: nat, style: Style)
    requires depth >= 1 && ValidField(f)
    requires At(text, i, PrintField(f, level, style))
    ensures Passes(text, i, i + |PrintField(f, level, style)|, depth, level)
    decreases f, 0
  {
    hide Passes, At, Print, FieldHead, Valid, ValidBody;
    var head, value := FieldHead(f.key, level, style), Print(f.value, level, style);
    AtSplit(text, i, head, value);
    HeadInContainer(text, i, f.key, depth, level, style);
    ValueInContainer(text, i + |head|, f.value, depth, level, style);
    PassesJoin(text, i, i + |head|, i + |head| + |value|, depth, level);
  }

  lemma {:induction false} FieldsInContainer(text: string, i: nat, fs: seq<Field>, depth: int, level: nat, style: Style)
    requires depth >= 1 && At(text, i, PrintFields(fs, level, style))
    requires forall k | 0 <= k < |fs| :: ValidField(fs[k])
    ensures Passes(text, i, i + |PrintFields(fs, level, style)|, depth, level)
    decreases fs, 1
  {
    hide Valid, Passes, At;
    if PrintFields(fs, level, style) == "" {
      PassesNothing(text, i, depth, level);
    }
    if fs != [] {
      var field, tail := PrintField(fs[0], level, style), FieldsTail(fs, level, style);
      AtSplit(text, i, field, tail);
      FieldInContainer(text, i, fs[0], depth, level, style);
      MoreFieldsInContainer(text, i + |field|, fs, depth, level, style);
      PassesJoin(text, i, i + |field|, i + |field| + |tail|, depth, level);
    }
  }

  lemma {:induction false} MoreFieldsInContainer(text: string, i: nat, fs: seq<Field>, depth: int, level: nat, style: Style)
    requires depth >= 1 && fs != [] && At(text, i, FieldsTail(fs, level, style))
    requires forall k | 0 <= k < |fs| :: ValidField(fs[k])
    ensures Passes(text, i, i + |FieldsTail(fs, level, style)|, depth, level)
    decreases fs, 0
  {
    hide Valid, Passes, At;
    if FieldsTail(fs, level, style) == "" {
      PassesNothing(text, i, depth, level);
    }
    if |fs| > 1 {
      var sep, more := "," + Repeat(' ', style.afterComma), PrintFields(fs[1..], level, style);
      AtSplit(text, i, sep, more);
      SeparatorInContainer(text, i, ',', style.afterComma, depth, level);
      FieldsInContainer(text, i + |sep|, fs[1..], depth, level, style);
      PassesJoin(text, i, i + |sep|, i + |sep| + |more|, depth, level);
    }
  }

  lemma HeadInContainer(text: string, i: nat, key: seq<Item>, depth: int, level: nat, style: Style)
    requires ValidBody(key) && At(text, i, FieldHead(key, level, style))
    ensures Passes(text, i, i + |FieldHead(key, level, style)|, depth, level)
  {
    var sep := ":" + Repeat(' ', style.afterColon);
    assert FieldHead(key, level, style) == PrintString(key, level) + sep;
    AtSplit(text, i, PrintString(key, level), sep);
    StringInContainer(text, i, key, depth, level);
    SeparatorInContainer(text, i + |PrintString(key, level)|, ':', style.afterColon, depth, level);
  }

  lemma ContainerEndsExactly(text: string, i: nat, j: Json, level: nat, style: Style)
    requires Valid(j) && (j.Arr? || j.Obj?) && At(text, i, Print(j, level, style))
    ensures ContainerEndFrom(text, i, 0, 0, level) == i + |Print(j, level, style)|
  {
    if j.Arr? {
      ArrayInContainer(text, i, j.elems, 0, level, style);
    } else {
      ObjectInContainer(text, i, j.fields, 0, level, style);
    }
  }

  // ---------------------------------------------------------------------
  // The value scanner
  // ---------------------------------------------------------------------

  /** `t` spells `word`, each letter in either case. */
  predicate Spells(t: string, word: string) {
    |t| == |word| && forall k | 0 <= k < |word| :: t[k] == word[k] || t[k] as int == word[k] as int - 32
  }

  predicate IsWord(t: string) { Spells(t, "null") || Spells(t, "true") || Spells(t, "false") }

  /** Lower-casing finds exactly the three words. */
  lemma WordsExactly(t: string)
    ensures IsNullOrBoolean(t) <==> IsWord(t)
  {
    LowersTo(t, "null");
    LowersTo(t, "true");
    LowersTo(t, "false");
  }

  lemma LowersTo(t: string, word: string)
    requires forall k | 0 <= k < |word| :: 'a' <= word[k] <= 'z'
    ensures Lower(t) == word <==> Spells(t, word)
  {
    if Spells(t, word) {
      assert forall k | 0 <= k < |word| :: Lower(t)[k] == word[k];
    }
    if Lower(t) == word {
      forall k | 0 <= k < |word|
        ensures t[k] == word[k] || t[k] as int == word[k] as int - 32
      {
        assert Lower(t)[k] == word[k];
      }
    }
  }

  /** The values the program replaces: anything but an empty string, null, a boolean and a
      string already redacted. */
  predicate Redactable(j: Json) {
    match j
    case Scalar(t) => !IsWord(t)
    case Str(b) => b != [] && !(RedactedPrefix <= Literal(b))
    case Arr(_) => true
    case Obj(_) => true
    case Held(_, _) => true
  }

  /** How the text of a tree begins. */
  lemma TextBegins(t: Json, level: nat, style: Style)
    requires Valid(t)
    ensures var x := Print(t, level, style);
      && x != "" && !IsSpace(x[0])
      && (t.Scalar? ==> x == t.token && !IsStructural(x[0]))
      && (t.Str? || t.Held? ==> x[0] == Delimiter(level)[0])
      && (t.Arr? ==> x[0] == '[') && (t.Obj? ==> x[0] == '{')
  {
  }

  /** Once a token has begun, only a comma or a closing bracket can end it, and it holds no colon. */
  lemma {:induction false} TokenHidesNoColon(p: string, t: string, rest: string)
    requires ':' in p && ',' !in p && ']' !in p && ':' !in t && Quote !in t && Backslash !in t
    requires rest != "" && (rest[0] == ',' || rest[0] == ']')
    ensures !(p <= Escape(t + rest))
    decreases |t|
  {
    if t == "" {
      assert t + rest == rest;
      assert Escape(rest)[0] == rest[0];
    } else {
      assert (t + rest)[1..] == t[1..] + rest;
      assert Escape(t + rest) == [t[0]] + Escape(t[1..] + rest);
      if p[0] == t[0] {
        assert p == [p[0]] + p[1..];
        assert t == [t[0]] + t[1..];
        TokenHidesNoColon(p[1..], t[1..], rest);
        PrefixCons(p, Escape(t + rest));
      }
    }
  }

  lemma ElemsHideNoPrefix(es: seq<Json>, style: Style)
    requires forall k | 0 <= k < |es| :: Valid(es[k])
    ensures !("REDACTED:" <= Escape(PrintElems(es, 0, style) + "]"))
  {
    var y := PrintElems(es, 0, style) + "]";
    if es == [] {
      assert Escape(y)[0] == ']';
    } else {
      var first, tail := Print(es[0], 0, style), ElemsTail(es, 0, style);
      TextBegins(es[0], 0, style);
      assert y == first + (tail + "]");
      if es[0].Scalar? {
        assert (tail + "]")[0] == ',' || (tail + "]")[0] == ']';
        TokenHidesNoColon("REDACTED:", first, tail + "]");
      } else {
        assert y[0] == first[0];
        assert Escape(y)[0] == Backslash || Escape(y)[0] == y[0];
      }
    }
  }

  /** The text of a tree does not read as a redacted value. */
  lemma TreeIsNotPlaceholder(t: Json, style: Style)
    requires Valid(t)
    ensures !(RedactedPrefix <= Escape(Print(t, 0, style)))
  {
    var x := Print(t, 0, style);
    TextBegins(t, 0, style);
    if t.Arr? {
      var y := PrintElems(t.elems, 0, style) + "]";
      assert x == "[" + y && x[1..] == y;
      ElemsHideNoPrefix(t.elems, style);
      assert Escape(x) == "[" + Escape(y) && Escape(x)[1..] == Escape(y);
      assert RedactedPrefix[1..] == "REDACTED:";
      PrefixCons(RedactedPrefix, Escape(x));
    } else {
      assert Escape(x)[0] == Backslash || Escape(x)[0] == x[0];
    }
  }

  lemma HeldValueEnds(text: string, i: nat, t: Json, layout: Style, level: nat, style: Style)
    requires Valid(t) && KnownLevel(level) && At(text, i, Print(Held(t, layout), level, style))
    ensures ValueEnd(text, i, level) == Some(i + |Print(Held(t, layout), level, style)|)
  {
    hide ValueEnd, Print, Valid, At, PrintString;
    var x := Print(t, 0, layout);
    HeldIsString(t, layout, level, style);
    HeldBodySpells(x);
    TextBegins(t, 0, layout);
    TreeIsNotPlaceholder(t, layout);
    StringValueEnds(text, i, HeldBody(x), level);
  }

  lemma {:induction false} PlainPrefix(p: string, lit: string, level: nat, rest: string)
    requires Quote !in p && Backslash !in p
    ensures p <= Lift(lit, level) + Delimiter(level) + rest <==> p <= lit
    decreases |p|
  {
    var whole := Lift(lit, level) + Delimiter(level) + rest;
    if p != "" {
      if lit == "" {
        assert whole[0] == Delimiter(level)[0];
      } else if lit[0] == Quote || lit[0] == Backslash {
        assert whole[0] == LiftChar(lit[0], level)[0];
      } else {
        var tail := Lift(lit[1..], level) + Delimiter(level) + rest;
        assert whole == [lit[0]] + tail;
        PlainPrefix(p[1..], lit[1..], level, rest);
        PrefixCons(p, whole);
        PrefixCons(p, lit);
      }
    }
  }

  lemma PrefixCons(p: string, s: string)
    requires p != "" && s != ""
    ensures p <= s <==> p[0] == s[0] && p[1..] <= s[1..]
  {
    if p[0] == s[0] && p[1..] <= s[1..] {
      assert forall k | 0 < k < |p| :: p[k] == p[1..][k - 1] == s[1..][k - 1] == s[k];
    }
  }

  lemma StringValueEnds(text: string, i: nat, b: seq<Item>, level: nat)
    requires ValidBody(b) && KnownLevel(level) && At(text, i, PrintString(b, level))
    ensures ValueEnd(text, i, level) == if Redactable(Str(b)) then Some(i + |PrintString(b, level)|) else None
  {
    hide StringEndFrom, ContainerEndFrom, ValidBody;
    var lit := Literal(b);
    var inner := i + level + 1;
    AtSplit3(text, i, Delimiter(level), Lift(lit, level), Delimiter(level));
    PrintedStringEnds(text, i, b, level);
    RedactedPrefixShows(text, inner, lit, level);
    assert b != [] ==> |Lift(lit, level)| > 0 by {
      if b != [] {
        LiftBody(b, level);
      }
    }
  }

  lemma RedactedPrefixShows(text: string, i: nat, lit: string, level: nat)
    requires At(text, i, Lift(lit, level)) && At(text, i + |Lift(lit, level)|, Delimiter(level))
    ensures At(text, i, RedactedPrefix) <==> RedactedPrefix <= lit
  {
    var k := i + |Lift(lit, level)| + level + 1;
    assert text[i..] == Lift(lit, level) + Delimiter(level) + text[k..];
    PlainPrefix(RedactedPrefix, lit, level, text[k..]);
    assert At(text, i, RedactedPrefix) <==> RedactedPrefix <= text[i..];
  }

  lemma {:induction false} TokenEnds(text: string, i: nat, t: string)
    requires At(text, i, t) && forall k | 0 <= k < |t| :: !StopsScalar(t[k])
    requires i + |t| < |text| ==> StopsScalar(text[i + |t|])
    ensures ScalarEnd(text, i) == i + |t|
    decreases |t|
  {
    if t != "" {
      AtChar(text, i, t, 0);
      assert t == t[..1] + t[1..];
      AtSplit(text, i, t[..1], t[1..]);
      TokenEnds(text, i + 1, t[1..]);
    }
  }

  lemma ScalarValueEnds(text: string, i: nat, t: string, level: nat)
    requires ValidToken(t) && KnownLevel(level) && At(text, i, t)
    requires i + |t| < |text| ==> StopsScalar(text[i + |t|])
    ensures ValueEnd(text, i, level) == if Redactable(Scalar(t)) then Some(i + |t|) else None
  {
    WordsExactly(t);
    AtChar(text, i, t, 0);
    if At(text, i, Delimiter(level)) {
      AtChar(text, i, Delimiter(level), 0);
    }
    TokenEnds(text, i, t);
    hide IsNullOrBoolean, IsWord;
  }

  /** A number, or anything else that is not one of the three words, is replaced, to its end; the words,
      spelled in any letter case, are left alone. */
  lemma ScalarsReplacedExactly(text: string, i: nat, t: string, level: nat)
    requires ValidToken(t) && KnownLevel(level) && At(text, i, t)
    requires i + |t| < |text| ==> StopsScalar(text[i + |t|])
    ensures ValueEnd(text, i, level).None? <==> Spells(t, "null") || Spells(t, "true") || Spells(t, "false")
    ensures ValueEnd(text, i, level).Some? ==> ValueEnd(text, i, level).value == i + |t|
    ensures '0' <= t[0] <= '9' || t[0] == '-' ==> ValueEnd(text, i, level) == Some(i + |t|)
  {
    ScalarValueEnds(text, i, t, level);
  }

  /** What ends a scalar, character by character, in any text. */
  lemma ScalarEndsWhere(text: string, i: nat)
    requires i <= |text|
    ensures var e := ScalarEnd(text, i);
      && (forall k | i <= k < e :: text[k] !in [',', '}', ']', Backslash, Quote] && !IsSpace(text[k]))
      && (e < |text| ==> text[e] in [',', '}', ']', Backslash, Quote] || IsSpace(text[e]))
    decreases |text| - i
  {
    if i < |text| && !StopsScalar(text[i]) {
      ScalarEndsWhere(text, i + 1);
    }
  }

  lemma ContainerValueEnds(text: string, i: nat, j: Json, level: nat, style: Style)
    requires Valid(j) && (j.Arr? || j.Obj?) && KnownLevel(level) && At(text, i, Print(j, level, style))
    ensures ValueEnd(text, i, level) == Some(i + |Print(j, level, style)|)
  {
    ContainerEndsExactly(text, i, j, level, style);
    AtChar(text, i, Print(j, level, style), 0);
    if At(text, i, Delimiter(level)) {
      AtChar(text, i, Delimiter(level), 0);
    }
  }

  /** The value scanner stops exactly at the end of the printed value, whatever quotes,
      backslashes and brackets its strings hold, and declines exactly the values that are not
      to be replaced. */
  lemma ValueEndsExactly(text: string, i: nat, j: Json, level: nat, style: Style)
    requires Valid(j) && KnownLevel(level) && At(text, i, Print(j, level, style))
    requires var end := i + |Print(j, level, style)|; j.Scalar? && end < |text| ==> StopsScalar(text[end])
    ensures ValueEnd(text, i, level) == if Redactable(j) then Some(i + |Print(j, level, style)|) else None
  {
    match j
    case Scalar(t) => ScalarValueEnds(text, i, t, level);
    case Str(b) => StringValueEnds(text, i, b, level);
    case Arr(_) => ContainerValueEnds(text, i, j, level, style);
    case Obj(_) => ContainerValueEnds(text, i, j, level, style);
    case Held(t, layout) => HeldValueEnds(text, i, t, layout, level, style);
  }
}
