/** Redacting the text of a JSON tree is redacting the tree. */
module RedactedTree {
  import opened Options
  import opened JsonText
  import opened Redaction
  import opened RedactionTheorems

  // ---------------------------------------------------------------------
  // The tree with the values of listed keys replaced
  // ---------------------------------------------------------------------

  function PlainItems(s: string): seq<Item> {
    if s == "" then [] else [Plain(s[0])] + PlainItems(s[1..])
  }

  const PlaceholderString: Json := Str(PlainItems("[REDACTED:JSON_FIELD]"))

  /** What redacting makes of a tree printed at a level; a held tree is one escaping further. */
  function Redacted(listed: string -> bool, level: nat, j: Json): Json
    decreases j, 1
  {
    match j
    case Scalar(_) => j
    case Str(_) => j
    case Arr(es) => Arr(RedactedElems(listed, level, es))
    case Obj(fs) => Obj(RedactedFields(listed, level, fs))
    case Held(t, layout) => Held(Redacted(listed, 2 * level + 1, t), layout)
  }

  function RedactedElems(listed: string -> bool, level: nat, es: seq<Json>): seq<Json>
    decreases es, 0
  {
    if es == [] then [] else [Redacted(listed, level, es[0])] + RedactedElems(listed, level, es[1..])
  }

  function RedactedFields(listed: string -> bool, level: nat, fs: seq<Field>): seq<Field>
    decreases fs, 0
  {
    if fs == [] then []
    else [Field(fs[0].key, RedactedValue(listed, level, fs[0]))] + RedactedFields(listed, level, fs[1..])
  }

  predicate Replaces(listed: string -> bool, level: nat, f: Field) {
    KnownLevel(level) && listed(Literal(f.key)) && Redactable(f.value)
  }

  function RedactedValue(listed: string -> bool, level: nat, f: Field): Json
    decreases f, 0
  {
    if Replaces(listed, level, f) then PlaceholderString else Redacted(listed, level, f.value)
  }

  /** How many values are replaced. */
  function Hits(listed: string -> bool, level: nat, j: Json): nat
    decreases j, 1
  {
    match j
    case Scalar(_) => 0
    case Str(_) => 0
    case Arr(es) => ElemHits(listed, level, es)
    case Obj(fs) => FieldHits(listed, level, fs)
    case Held(t, _) => Hits(listed, 2 * level + 1, t)
  }

  function ElemHits(listed: string -> bool, level: nat, es: seq<Json>): nat
    decreases es, 0
  {
    if es == [] then 0 else Hits(listed, level, es[0]) + ElemHits(listed, level, es[1..])
  }

  function FieldHits(listed: string -> bool, level: nat, fs: seq<Field>): nat
    decreases fs, 0
  {
    if fs == [] then 0 else ValueHits(listed, level, fs[0]) + FieldHits(listed, level, fs[1..])
  }

  function ValueHits(listed: string -> bool, level: nat, f: Field): nat
    decreases f, 0
  {
    if Replaces(listed, level, f) then 1 else Hits(listed, level, f.value)
  }

  // ---------------------------------------------------------------------
  // Where the key pattern matches in printed text
  // ---------------------------------------------------------------------

  lemma AtAll(text: string, i: nat, part: string)
    requires At(text, i, part)
    ensures forall k | i <= k < i + |part| :: text[k] == part[k - i]
  {
    forall k | i <= k < i + |part|
      ensures text[k] == part[k - i]
    {
      AtChar(text, i, part, k - i);
    }
  }

  lemma {:induction false} RunFacts(text: string, i: nat)
    requires i <= |text|
    ensures var n := RunLength(text, i);
      && (forall k | i <= k < i + n :: text[k] == Backslash)
      && (i + n < |text| ==> text[i + n] != Backslash)
    decreases |text| - i
  {
    if i < |text| && text[i] == Backslash {
      RunFacts(text, i + 1);
    }
  }

  lemma {:induction false} ChunkFacts(text: string, i: nat)
    requires i <= |text|
    ensures var e := ChunkEnd(text, i);
      && (forall k | i <= k < e :: text[k] != Quote && text[k] != Backslash)
      && (e < |text| ==> text[e] == Quote || text[e] == Backslash)
    decreases |text| - i
  {
    if i < |text| && text[i] != Quote && text[i] != Backslash {
      ChunkFacts(text, i + 1);
    }
  }

  lemma {:induction false} SpaceFacts(text: string, i: nat)
    requires i <= |text|
    ensures var e := SkipSpaces(text, i);
      && (forall k | i <= k < e :: IsSpace(text[k]))
      && (e < |text| ==> !IsSpace(text[e]))
    decreases |text| - i
  {
    if i < |text| && IsSpace(text[i]) {
      SpaceFacts(text, i + 1);
    }
  }

  lemma RunIs(text: string, i: nat, n: nat)
    requires At(text, i, Repeat(Backslash, n)) && i + n < |text| && text[i + n] != Backslash
    ensures RunLength(text, i) == n
  {
    AtAll(text, i, Repeat(Backslash, n));
    RunFacts(text, i);
  }

  lemma ChunkIs(text: string, i: nat, part: string)
    requires At(text, i, part) && Quote !in part && Backslash !in part
    requires i + |part| < |text| && (text[i + |part|] == Quote || text[i + |part|] == Backslash)
    ensures ChunkEnd(text, i) == i + |part|
  {
    AtAll(text, i, part);
    ChunkFacts(text, i);
  }

  lemma SpacesAre(text: string, i: nat, n: nat)
    requires At(text, i, Repeat(' ', n)) && i + n < |text| && !IsSpace(text[i + n])
    ensures SkipSpaces(text, i) == i + n
  {
    AtAll(text, i, Repeat(' ', n));
    SpaceFacts(text, i);
  }

  lemma {:induction false} QuoteFreeLift(body: seq<Item>, level: nat)
    requires ValidBody(body) && QuoteFreeBody(body)
    ensures Quote !in Literal(body) && Quote !in Lift(Literal(body), level)
  {
    if body != [] {
      QuoteFreeLift(body[1..], level);
      LiftBody(body, level);
      if body[0].Escaped? {
        LiftEscaped(body[0].c, level);
      }
    }
  }

  /** The only quotes of a quote-free printed string are its delimiters. */
  lemma QuotesOfString(text: string, i: nat, body: seq<Item>, level: nat)
    requires ValidBody(body) && QuoteFreeBody(body) && At(text, i, PrintString(body, level))
    ensures var e := i + |PrintString(body, level)|;
            forall k | i <= k < e && text[k] == Quote :: k == i + level || k == e - 1
  {
    hide Lift, Literal;
    var inner := Lift(Literal(body), level);
    AtSplit3(text, i, Delimiter(level), inner, Delimiter(level));
    QuoteFreeLift(body, level);
    var e := i + |PrintString(body, level)|;
    forall k | i <= k < e && text[k] == Quote
      ensures k == i + level || k == e - 1
    {
      if k < i + level + 1 {
        AtChar(text, i, Delimiter(level), k - i);
      } else if k < i + level + 1 + |inner| {
        AtChar(text, i + level + 1, inner, k - i - level - 1);
      } else {
        AtChar(text, i + level + 1 + |inner|, Delimiter(level), k - (i + level + 1 + |inner|));
      }
    }
  }

  /** What may follow a value: the end, a comma, a closing bracket, the delimiter of a string it is held in,
      or anything that does not read on as the colon of a key or as a listed key. */
  ghost predicate Tail(listed: string -> bool, text: string, e: nat) {
    && e <= |text|
    && (|| e == |text| || text[e] == ',' || Closes(text[e]) || text[e] == Quote || text[e] == Backslash
        || ((SkipSpaces(text, e) < |text| ==> text[SkipSpaces(text, e)] != ':')
            && ((forall k | e <= k < |text| :: text[k] != Quote) || !listed(text[e..ChunkEnd(text, e)]))))
  }

  /** The two quotes a match of the key pattern takes, and the colon after them. */
  lemma MatchShape(listed: string -> bool, text: string, s: nat) returns (q: nat, q2: nat)
    requires s <= |text| && MatchAt(listed, text, s).Some?
    ensures s <= q < q2 < |text| && text[q] == Quote && text[q2] == Quote
    ensures forall k | s <= k < q :: text[k] == Backslash
    ensures forall k | q < k < q2 :: text[k] != Quote
    ensures SkipSpaces(text, q2 + 1) < |text| && text[SkipSpaces(text, q2 + 1)] == ':'
    ensures listed(text[q + 1..ChunkEnd(text, q + 1)])
    ensures RunLength(text, ChunkEnd(text, q + 1)) == q - s
    ensures ChunkEnd(text, q + 1) + (q - s) == q2
  {
    RunFacts(text, s);
    q := s + RunLength(text, s);
    ChunkFacts(text, q + 1);
    RunFacts(text, ChunkEnd(text, q + 1));
    q2 := ChunkEnd(text, q + 1) + RunLength(text, s);
  }

  /** Keys that cannot be read into what follows a closing quote in JSON: none begins with a bracket, a
      comma or a colon. */
  ghost predicate JsonKeys(listed: string -> bool) {
    PlainKeys(listed) && forall k | listed(k) && k != "" :: !IsStructural(k[0])
  }

  lemma KeysArePlain(listed: string -> bool)
    requires JsonKeys(listed)
    ensures PlainKeys(listed)
  {
  }

  lemma ListedIsPlain(listed: string -> bool, key: string)
    requires PlainKeys(listed) && listed(key)
    ensures key != "" && Quote !in key && Backslash !in key
  {
  }

  /** No match begins with the closing quote of a string that a value's tail or a colon follows. */
  lemma NotAtClosingQuote(listed: string -> bool, text: string, q: nat, q2: nat)
    requires JsonKeys(listed) && q < q2 < |text| && text[q2] == Quote
    requires listed(text[q + 1..ChunkEnd(text, q + 1)])
    ensures !Tail(listed, text, q + 1) && text[q + 1] != ':'
  {
    var key := text[q + 1..ChunkEnd(text, q + 1)];
    ListedIsPlain(listed, key);
    assert key[0] == text[q + 1] && key[0] in key;
  }

  /** The quotes a match inside a quote-free string can take. */
  lemma MatchInString(listed: string -> bool, text: string, i: nat, body: seq<Item>, level: nat, s: nat)
    returns (q: nat, q2: nat)
    requires ValidBody(body) && QuoteFreeBody(body) && At(text, i, PrintString(body, level))
    requires i <= s < i + |PrintString(body, level)| && MatchAt(listed, text, s).Some?
    ensures s <= q < q2 < |text| && text[q2] == Quote && listed(text[q + 1..ChunkEnd(text, q + 1)])
    ensures SkipSpaces(text, q2 + 1) < |text| && text[SkipSpaces(text, q2 + 1)] == ':'
    ensures RunLength(text, ChunkEnd(text, q + 1)) == q - s && ChunkEnd(text, q + 1) + (q - s) == q2
    ensures var e := i + |PrintString(body, level)|; q == e - 1 || (q == i + level && q2 == e - 1)
  {
    var e := i + |PrintString(body, level)|;
    QuotesOfString(text, i, body, level);
    AtChar(text, i, PrintString(body, level), e - 1 - i);
    q, q2 := MatchShape(listed, text, s);
  }

  lemma MatchNeedsColon(listed: string -> bool, text: string, i: nat, body: seq<Item>, level: nat, s: nat)
    requires JsonKeys(listed) && ValidBody(body) && QuoteFreeBody(body) && At(text, i, PrintString(body, level))
    requires i <= s < i + |PrintString(body, level)| && MatchAt(listed, text, s).Some?
    ensures !Tail(listed, text, i + |PrintString(body, level)|)
  {
    hide At;
    var q, q2 := MatchInString(listed, text, i, body, level, s);
    NotAtClosingQuote(listed, text, q, q2);
  }

  lemma NoMatchInString(listed: string -> bool, text: string, i: nat, body: seq<Item>, level: nat)
    requires JsonKeys(listed) && ValidBody(body) && QuoteFreeBody(body) && At(text, i, PrintString(body, level))
    requires Tail(listed, text, i + |PrintString(body, level)|)
    ensures NoMatch(listed, text, i, i + |PrintString(body, level)|)
  {
    forall s | i <= s < i + |PrintString(body, level)|
      ensures MatchAt(listed, text, s).None?
    {
      if MatchAt(listed, text, s).Some? {
        MatchNeedsColon(listed, text, i, body, level, s);
      }
    }
  }

  // ---------------------------------------------------------------------
  // The head of a field: its key, the colon and the spaces
  // ---------------------------------------------------------------------

  /** A field's head at `i`, with a value that does not begin with a space after it. */
  ghost predicate HeadAt(text: string, i: nat, key: seq<Item>, level: nat, style: Style) {
    && ValidBody(key) && QuoteFreeBody(key)
    && At(text, i, FieldHead(key, level, style))
    && i + |FieldHead(key, level, style)| < |text|
    && !IsSpace(text[i + |FieldHead(key, level, style)|])
  }

  lemma ColonAndSpaces(text: string, e: nat, spaces: nat)
    requires At(text, e, ":") && At(text, e + 1, Repeat(' ', spaces))
    requires e + 1 + spaces < |text| && !IsSpace(text[e + 1 + spaces])
    ensures text[e] == ':' && (forall k | e <= k < e + 1 + spaces :: text[k] != Quote && text[k] != Backslash)
    ensures SkipSpaces(text, e) == e && SkipSpaces(text, e + 1) == e + 1 + spaces
  {
    AtChar(text, e, ":", 0);
    AtAll(text, e + 1, Repeat(' ', spaces));
    SpacesAre(text, e + 1, spaces);
  }

  lemma HeadParts(text: string, i: nat, key: seq<Item>, level: nat, style: Style)
    requires HeadAt(text, i, key, level, style)
    ensures var e := i + |PrintString(key, level)|; var v := i + |FieldHead(key, level, style)|;
      && ValidBody(key) && QuoteFreeBody(key)
      && At(text, i, PrintString(key, level)) && e < v == e + 1 + style.afterColon < |text|
      && text[e] == ':' && (forall k | e <= k < v :: text[k] != Quote && text[k] != Backslash)
      && SkipSpaces(text, e) == e && SkipSpaces(text, e + 1) == v
  {
    hide At, SkipSpaces, PrintString;
    AtSplit3(text, i, PrintString(key, level), ":", Repeat(' ', style.afterColon));
    ColonAndSpaces(text, i + |PrintString(key, level)|, style.afterColon);
  }

  lemma BuildMatch(listed: string -> bool, text: string, s: nat, run: nat, e: nat, c: nat)
    requires s + run < e && e + run < c < |text|
    requires RunLength(text, s) == run && text[s + run] == Quote
    requires ChunkEnd(text, s + run + 1) == e && listed(text[s + run + 1..e])
    requires RunLength(text, e) == run && text[e + run] == Quote
    requires SkipSpaces(text, e + run + 1) == c && text[c] == ':'
    ensures MatchAt(listed, text, s) == Some(Match(run, SkipSpaces(text, c + 1)))
  {
  }

  lemma StringParts(text: string, i: nat, body: seq<Item>, level: nat)
    requires At(text, i, PrintString(body, level))
    ensures var inner := Lift(Literal(body), level);
      && |PrintString(body, level)| == 2 * level + 2 + |inner|
      && At(text, i, Delimiter(level)) && At(text, i + level + 1, inner)
      && At(text, i + level + 1 + |inner|, Delimiter(level))
  {
    AtSplit3(text, i, Delimiter(level), Lift(Literal(body), level), Delimiter(level));
  }

  lemma PlainChunk(text: string, i: nat, lit: string, level: nat)
    requires At(text, i, lit) && At(text, i + |lit|, Delimiter(level)) && Quote !in lit && Backslash !in lit
    ensures ChunkEnd(text, i) == i + |lit| && text[i..i + |lit|] == lit
    ensures RunLength(text, i + |lit|) == level && text[i + |lit| + level] == Quote
  {
    DelimiterAt(text, i + |lit|, level);
    ChunkIs(text, i, lit);
  }

  lemma ListedKeyMatches(listed: string -> bool, text: string, i: nat, key: seq<Item>, level: nat, style: Style)
    requires JsonKeys(listed) && HeadAt(text, i, key, level, style) && listed(Literal(key))
    ensures MatchAt(listed, text, i) == Some(Match(level, i + |FieldHead(key, level, style)|))
  {
    hide *;
    var lit := Literal(key);
    HeadParts(text, i, key, level, style);
    StringParts(text, i, key, level);
    KeysArePlain(listed);
    ListedIsPlain(listed, lit);
    LiftPlain(lit, level);
    DelimiterAt(text, i, level);
    PlainChunk(text, i + level + 1, lit, level);
    BuildMatch(listed, text, i, level, i + level + 1 + |lit|, i + |PrintString(key, level)|);
  }

  lemma DelimiterAt(text: string, i: nat, level: nat)
    requires At(text, i, Delimiter(level))
    ensures RunLength(text, i) == level && i + level < |text| && text[i + level] == Quote
    ensures text[i] == Quote || text[i] == Backslash
  {
    AtSplit(text, i, Repeat(Backslash, level), [Quote]);
    AtChar(text, i + level, [Quote], 0);
    AtChar(text, i, Delimiter(level), 0);
    RunIs(text, i, level);
  }

  lemma LiftAtBackslash(lit: string, x: nat, level: nat)
    requires x < |lit| && lit[x] == Backslash && Quote !in lit && Backslash !in lit[..x]
    ensures Lift(lit, level) == lit[..x] + Repeat(Backslash, level + 1) + Lift(lit[x + 1..], level)
  {
    assert lit == lit[..x] + lit[x..] && lit[x..][1..] == lit[x + 1..];
    LiftConcat(lit[..x], lit[x..], level);
    LiftPlain(lit[..x], level);
  }

  /** A backslash in the key's literal makes a longer run than the key's delimiter has. */
  lemma EscapedKeyRun(text: string, i: nat, lit: string, level: nat)
    requires At(text, i, Lift(lit, level)) && Quote !in lit && Backslash in lit
    ensures RunLength(text, ChunkEnd(text, i)) > level
  {
    var x := FirstBackslash(lit, 0);
    LiftAtBackslash(lit, x, level);
    AtSplit3(text, i, lit[..x], Repeat(Backslash, level + 1), Lift(lit[x + 1..], level));
    LongRun(text, i, lit[..x], level);
  }

  lemma LongRun(text: string, i: nat, part: string, level: nat)
    requires At(text, i, part) && Quote !in part && Backslash !in part
    requires At(text, i + |part|, Repeat(Backslash, level + 1))
    ensures RunLength(text, ChunkEnd(text, i)) > level
  {
    AtAll(text, i + |part|, Repeat(Backslash, level + 1));
    ChunkIs(text, i, part);
    RunFacts(text, i + |part|);
  }

  lemma {:induction false} FirstBackslash(lit: string, from: nat) returns (x: nat)
    requires from <= |lit| && Backslash !in lit[..from] && Backslash in lit
    ensures x < |lit| && lit[x] == Backslash && Backslash !in lit[..x]
    decreases |lit| - from
  {
    if lit[from] == Backslash {
      x := from;
    } else {
      x := FirstBackslash(lit, from + 1);
    }
  }

  /** In a field's head, a match has to take the whole literal of the key. */
  lemma MatchTakesLiteral(listed: string -> bool, text: string, i: nat, key: seq<Item>, level: nat, style: Style, s: nat)
    requires JsonKeys(listed) && HeadAt(text, i, key, level, style)
    requires i <= s < i + |PrintString(key, level)| && MatchAt(listed, text, s).Some?
    ensures listed(Literal(key))
  {
    hide *;
    var lit := Literal(key);
    HeadParts(text, i, key, level, style);
    var q, q2 := MatchInString(listed, text, i, key, level, s);
    NotAtClosingQuote(listed, text, q, q2);
    StringParts(text, i, key, level);
    QuoteFreeLift(key, level);
    if Backslash in lit {
      EscapedKeyRun(text, i + level + 1, lit, level);
    } else {
      LiftPlain(lit, level);
      PlainChunk(text, i + level + 1, lit, level);
    }
  }

  lemma NoMatchOffQuotes(listed: string -> bool, text: string, s: nat)
    requires s < |text| && text[s] != Quote && text[s] != Backslash
    ensures MatchAt(listed, text, s).None?
  {
  }

  /** The key pattern as it is written: the same run of backslashes before both quotes of a
      listed key, then a colon between optional spaces, all of them taken. */
  ghost predicate PatternAt(listed: string -> bool, text: string, s: nat, level: nat, k: string, c: nat, end: nat) {
    && listed(k) && At(text, s, Delimiter(level) + k + Delimiter(level))
    && s + |k| + 2 * level + 2 <= c < end <= |text| && text[c] == ':'
    && AllSpaces(text, s + |k| + 2 * level + 2, c) && AllSpaces(text, c + 1, end)
    && (end < |text| ==> text[end] !in Whitespace)
  }

  predicate AllSpaces(text: string, i: nat, j: nat)
    requires j <= |text|
  {
    forall k | i <= k < j :: text[k] in Whitespace
  }

  lemma SpacesUpTo(text: string, i: nat, j: nat)
    requires i <= j <= |text| && AllSpaces(text, i, j) && (j < |text| ==> text[j] !in Whitespace)
    ensures SkipSpaces(text, i) == j
  {
    SpaceFacts(text, i);
    SpacesInText(text);
    hide IsSpace, Whitespace;
  }

  lemma ColonIsNoSpace()
    ensures ':' !in Whitespace
  {
    SpacesExactly(':');
    hide Whitespace;
  }

  lemma SpacesInText(text: string)
    ensures forall k | 0 <= k < |text| :: IsSpace(text[k]) <==> text[k] in Whitespace
  {
    hide Whitespace, IsSpace;
    forall k | 0 <= k < |text|
      ensures IsSpace(text[k]) <==> text[k] in Whitespace
    {
      SpacesExactly(text[k]);
    }
  }

  lemma PatternMatches(listed: string -> bool, text: string, s: nat, level: nat, k: string, c: nat, end: nat)
    requires PlainKeys(listed) && PatternAt(listed, text, s, level, k, c, end)
    ensures MatchAt(listed, text, s) == Some(Match(level, end))
  {
    hide PlainKeys, MatchAt, At, Whitespace;
    var e := s + level + 1 + |k|;
    ColonIsNoSpace();
    AtSplit3(text, s, Delimiter(level), k, Delimiter(level));
    ListedIsPlain(listed, k);
    DelimiterAt(text, s, level);
    PlainChunk(text, s + level + 1, k, level);
    SpacesUpTo(text, e + level + 1, c);
    SpacesUpTo(text, c + 1, end);
    BuildMatch(listed, text, s, level, e, c);
  }

  lemma DelimiterFromRun(text: string, i: nat)
    requires i <= |text| && i + RunLength(text, i) < |text| && text[i + RunLength(text, i)] == Quote
    ensures At(text, i, Delimiter(RunLength(text, i)))
  {
    RunFacts(text, i);
    assert text[i..i + RunLength(text, i) + 1] == Delimiter(RunLength(text, i));
  }

  lemma PatternFromParts(text: string, s: nat, level: nat, e: nat)
    requires s + level + 1 <= e <= |text|
    requires At(text, s, Delimiter(level)) && At(text, e, Delimiter(level))
    ensures At(text, s, Delimiter(level) + text[s + level + 1..e] + Delimiter(level))
  {
    AtSplit3(text, s, Delimiter(level), text[s + level + 1..e], Delimiter(level));
  }

  lemma MatchIsPattern(listed: string -> bool, text: string, s: nat) returns (k: string, c: nat)
    requires s <= |text| && MatchAt(listed, text, s).Some?
    ensures var m := MatchAt(listed, text, s).value; PatternAt(listed, text, s, m.level, k, c, m.end)
  {
    hide At, Delimiter, RunLength, ChunkEnd, SkipSpaces, IsSpace, Whitespace;
    SpacesInText(text);
    var level := RunLength(text, s);
    var e := ChunkEnd(text, s + level + 1);
    k, c := text[s + level + 1..e], SkipSpaces(text, e + level + 1);
    DelimiterFromRun(text, s);
    DelimiterFromRun(text, e);
    SpaceFacts(text, e + level + 1);
    SpaceFacts(text, c + 1);
    PatternFromParts(text, s, level, e);
  }

  /** The matcher decides the pattern: it answers `m` at `s` exactly when the pattern, written
      out, takes the text from `s` to `m.end` at level `m.level`. */
  lemma MatcherDecidesPattern(listed: string -> bool, text: string, s: nat, m: Match)
    requires PlainKeys(listed) && s <= |text|
    ensures MatchAt(listed, text, s) == Some(m) <==> exists k, c :: PatternAt(listed, text, s, m.level, k, c, m.end)
  {
    hide PlainKeys, PatternAt, MatchAt;
    if MatchAt(listed, text, s) == Some(m) {
      var k, c := MatchIsPattern(listed, text, s);
    }
    if k, c :| PatternAt(listed, text, s, m.level, k, c, m.end) {
      PatternMatches(listed, text, s, m.level, k, c, m.end);
    }
  }

  lemma UnlistedKeyPassedAt(listed: string -> bool, text: string, i: nat, key: seq<Item>, level: nat, style: Style, s: nat)
    requires JsonKeys(listed) && HeadAt(text, i, key, level, style) && !listed(Literal(key))
    requires i <= s < i + |FieldHead(key, level, style)| <= |text|
    ensures MatchAt(listed, text, s).None?
  {
    hide *;
    HeadParts(text, i, key, level, style);
    if s >= i + |PrintString(key, level)| {
      NoMatchOffQuotes(listed, text, s);
    } else if MatchAt(listed, text, s).Some? {
      MatchTakesLiteral(listed, text, i, key, level, style, s);
    }
  }

  lemma UnlistedKeyPassed(listed: string -> bool, text: string, i: nat, key: seq<Item>, level: nat, style: Style)
    requires JsonKeys(listed) && HeadAt(text, i, key, level, style) && !listed(Literal(key))
    ensures NoMatch(listed, text, i, i + |FieldHead(key, level, style)|)
  {
    forall s | i <= s < i + |FieldHead(key, level, style)|
      ensures MatchAt(listed, text, s).None?
    {
      UnlistedKeyPassedAt(listed, text, i, key, level, style, s);
    }
  }

  // ---------------------------------------------------------------------
  // Redacting the text is redacting the tree
  // ---------------------------------------------------------------------

  /** From `i` on, the program writes `out` for `text[i..j]` and replaces `hits` values in it. */
  ghost predicate Becomes(listed: string -> bool, text: string, i: nat, j: nat, out: string, hits: nat) {
    && i <= j <= |text|
    && RedactFrom(listed, text, i) == After(out, hits, RedactFrom(listed, text, j))
  }

  lemma BecomesJoin(listed: string -> bool, text: string, i: nat, j: nat, k: nat,
                    a: string, g: nat, b: string, h: nat)
    requires Becomes(listed, text, i, j, a, g) && Becomes(listed, text, j, k, b, h)
    ensures Becomes(listed, text, i, k, a + b, g + h)
  {
    hide RedactFrom;
    AfterAfter(a, g, b, h, RedactFrom(listed, text, k));
  }

  lemma BecomesItself(listed: string -> bool, text: string, i: nat, part: string)
    requires At(text, i, part) && NoMatch(listed, text, i, i + |part|)
    ensures Becomes(listed, text, i, i + |part|, part, 0)
  {
    hide RedactFrom, MatchAt;
    NoMatchStretch(listed, text, i, i + |part|);
  }

  /** Text with no quote and no backslash in it is copied. */
  lemma InertBecomesItself(listed: string -> bool, text: string, i: nat, part: string)
    requires At(text, i, part) && Quote !in part && Backslash !in part
    ensures Becomes(listed, text, i, i + |part|, part, 0)
  {
    AtAll(text, i, part);
    forall s | i <= s < i + |part|
      ensures MatchAt(listed, text, s).None?
    {
      hide MatchAt;
      assert text[s] == part[s - i] && part[s - i] in part;
      NoMatchOffQuotes(listed, text, s);
    }
    BecomesItself(listed, text, i, part);
  }

  /** A listed key: its head is copied, and its value replaced when the value scanner finds one. */
  lemma ListedHeadBecomes(listed: string -> bool, text: string, i: nat, key: seq<Item>, level: nat, style: Style)
    requires JsonKeys(listed) && HeadAt(text, i, key, level, style) && listed(Literal(key))
    ensures var head := FieldHead(key, level, style); var v := i + |head|;
      match ValueEnd(text, v, level)
      case None => Becomes(listed, text, i, v, head, 0)
      case Some(end) => Becomes(listed, text, i, end, head + Placeholder(level), 1)
  {
    hide ValueEnd, MatchAt, RedactFrom, FieldHead, JsonKeys;
    var head := FieldHead(key, level, style);
    var v := i + |head|;
    ListedKeyMatches(listed, text, i, key, level, style);
    TurnAtMatch(listed, text, i, Match(level, v));
    assert text[i..v] == head;
    assert head + "" == head;
  }

  /** The value scanner's answer for a field's value, at a level it knows and at one it does not. */
  ghost predicate ScannedValue(text: string, v: nat, value: Json, level: nat, style: Style) {
    v <= |text| &&
    ValueEnd(text, v, level)
      == if KnownLevel(level) && Redactable(value) then Some(v + |Print(value, level, style)|) else None
  }

  /** A field's head is copied, and the value is replaced or read on into. */
  lemma HeadBecomes(listed: string -> bool, text: string, i: nat, f: Field, level: nat, style: Style)
    requires JsonKeys(listed) && HeadAt(text, i, f.key, level, style)
    requires ScannedValue(text, i + |FieldHead(f.key, level, style)|, f.value, level, style)
    ensures var head := FieldHead(f.key, level, style); var v := i + |head|;
      if Replaces(listed, level, f)
      then Becomes(listed, text, i, v + |Print(f.value, level, style)|, head + Placeholder(level), 1)
      else Becomes(listed, text, i, v, head, 0)
  {
    hide ValueEnd, Becomes, FieldHead, Print, JsonKeys, Redactable, KnownLevel;
    if listed(Literal(f.key)) {
      ListedHeadBecomes(listed, text, i, f.key, level, style);
    } else {
      UnlistedKeyPassed(listed, text, i, f.key, level, style);
      BecomesItself(listed, text, i, FieldHead(f.key, level, style));
    }
  }

  lemma ValueIsScanned(text: string, v: nat, value: Json, level: nat, style: Style)
    requires Valid(value) && At(text, v, Print(value, level, style))
    requires v + |Print(value, level, style)| < |text| && StopsScalar(text[v + |Print(value, level, style)|])
    ensures ScannedValue(text, v, value, level, style)
  {
    hide Print, Valid, Redactable, At;
    if KnownLevel(level) {
      hide *;
      ValueEndsExactly(text, v, value, level, style);
    }
  }

  function Separated(rest: string, style: Style): string {
    "," + Repeat(' ', style.afterComma) + rest
  }

  /** What follows the first of several parts: nothing, or a separator and the rest. */
  function Trailing(more: bool, rest: string, style: Style): string {
    if more then Separated(rest, style) else ""
  }

  lemma ElemsCons(j: Json, rest: seq<Json>, level: nat, style: Style)
    ensures PrintElems([j] + rest, level, style)
         == Print(j, level, style) + Trailing(rest != [], PrintElems(rest, level, style), style)
  {
    assert ([j] + rest)[1..] == rest;
  }

  lemma FieldsCons(f: Field, rest: seq<Field>, level: nat, style: Style)
    ensures PrintFields([f] + rest, level, style)
         == PrintField(f, level, style) + Trailing(rest != [], PrintFields(rest, level, style), style)
  {
    assert ([f] + rest)[1..] == rest;
  }

  /** The separator is copied in front of whatever the rest becomes. */
  lemma SeparatedBecomes(listed: string -> bool, text: string, i: nat, rest: string, style: Style, out: string, hits: nat)
    requires At(text, i, Separated(rest, style))
    requires Becomes(listed, text, i + 1 + style.afterComma, i + |Separated(rest, style)|, out, hits)
    ensures Becomes(listed, text, i, i + |Separated(rest, style)|, Separated(out, style), hits)
    ensures text[i] == ','
  {
    hide Becomes;
    var sep := "," + Repeat(' ', style.afterComma);
    AtSplit(text, i, sep, rest);
    AtChar(text, i, sep, 0);
    InertBecomesItself(listed, text, i, sep);
    BecomesJoin(listed, text, i, i + |sep|, i + |sep| + |rest|, sep, 0, out, hits);
  }

  /** A part at `i` with a comma or a closing bracket after it. */
  ghost predicate Enclosed(text: string, i: nat, part: string) {
    && At(text, i, part) && i + |part| < |text|
    && (text[i + |part|] == ',' || Closes(text[i + |part|]))
  }

  lemma EnclosedTail(listed: string -> bool, text: string, i: nat, part: string)
    requires Enclosed(text, i, part)
    ensures Here(listed, text, i, part) && StopsScalar(text[i + |part|])
  {
  }

  lemma ListLayout(text: string, i: nat, first: string, more: bool, rest: string, style: Style)
    requires Enclosed(text, i, first + Trailing(more, rest, style))
    ensures Enclosed(text, i, first)
    ensures more ==> At(text, i + |first|, Separated(rest, style))
    ensures more ==> Enclosed(text, i + |first| + 1 + style.afterComma, rest)
  {
    var j := i + |first|;
    AtSplit(text, i, first, Trailing(more, rest, style));
    if more {
      var sep := "," + Repeat(' ', style.afterComma);
      AtSplit(text, j, sep, rest);
      AtChar(text, j, sep, 0);
    }
  }

  lemma ListBecomes(listed: string -> bool, text: string, i: nat, first: string, more: bool, rest: string, style: Style,
                    a: string, g: nat, b: string, h: nat)
    requires Becomes(listed, text, i, i + |first|, a, g)
    requires more ==> At(text, i + |first|, Separated(rest, style))
    requires more ==> Becomes(listed, text, i + |first| + 1 + style.afterComma, i + |first| + 1 + style.afterComma + |rest|, b, h)
    ensures Becomes(listed, text, i, i + |first + Trailing(more, rest, style)|,
                    a + Trailing(more, b, style), g + if more then h else 0)
  {
    hide Becomes, At;
    var j := i + |first|;
    if more {
      SeparatedBecomes(listed, text, j, rest, style, b, h);
      BecomesJoin(listed, text, i, j, j + |Separated(rest, style)|, a, g, Separated(b, style), h);
    } else {
      assert first + "" == first && a + "" == a;
    }
  }

  lemma BracketedBecomes(listed: string -> bool, text: string, i: nat, open: string, inner: string, close: string,
                         out: string, hits: nat)
    requires At(text, i, open + inner + close)
    requires Quote !in open && Backslash !in open && Quote !in close && Backslash !in close
    requires Becomes(listed, text, i + |open|, i + |open| + |inner|, out, hits)
    ensures Becomes(listed, text, i, i + |open + inner + close|, open + out + close, hits)
  {
    hide Becomes;
    var j := i + |open|;
    AtSplit3(text, i, open, inner, close);
    InertBecomesItself(listed, text, i, open);
    BecomesJoin(listed, text, i, j, j + |inner|, open, 0, out, hits);
    InertBecomesItself(listed, text, j + |inner|, close);
    BecomesJoin(listed, text, i, j + |inner|, j + |inner| + |close|, open + out, hits, close, 0);
  }

  lemma {:induction false} RedactedSizes(listed: string -> bool, level: nat, es: seq<Json>, fs: seq<Field>)
    ensures |RedactedElems(listed, level, es)| == |es| && |RedactedFields(listed, level, fs)| == |fs|
    decreases |es| + |fs|
  {
    if es != [] {
      RedactedSizes(listed, level, es[1..], fs);
    }
    if fs != [] {
      RedactedSizes(listed, level, es, fs[1..]);
    }
  }

  /** What the program makes of the text of a value: the text of the redacted value. */
  ghost predicate ValueRedacted(listed: string -> bool, text: string, i: nat, j: Json, level: nat, style: Style) {
    Becomes(listed, text, i, i + |Print(j, level, style)|,
            Print(Redacted(listed, level, j), level, style), Hits(listed, level, j))
  }

  ghost predicate ElemsRedacted(listed: string -> bool, text: string, i: nat, es: seq<Json>, level: nat, style: Style) {
    Becomes(listed, text, i, i + |PrintElems(es, level, style)|,
            PrintElems(RedactedElems(listed, level, es), level, style),
            ElemHits(listed, level, es))
  }

  ghost predicate FieldsRedacted(listed: string -> bool, text: string, i: nat, fs: seq<Field>, level: nat, style: Style) {
    Becomes(listed, text, i, i + |PrintFields(fs, level, style)|,
            PrintFields(RedactedFields(listed, level, fs), level, style),
            FieldHits(listed, level, fs))
  }

  ghost predicate FieldRedacted(listed: string -> bool, text: string, i: nat, f: Field, level: nat, style: Style) {
    Becomes(listed, text, i, i + |PrintField(f, level, style)|,
            PrintField(Field(f.key, RedactedValue(listed, level, f)), level, style),
            ValueHits(listed, level, f))
  }

  /** The printed tree at `i`, and a tail that cannot turn it into a key. */
  ghost predicate Here(listed: string -> bool, text: string, i: nat, part: string) {
    At(text, i, part) && Tail(listed, text, i + |part|)
  }

  lemma {:induction false} RedactsValue(listed: string -> bool, text: string, i: nat, j: Json, level: nat, style: Style)
    requires JsonKeys(listed) && Valid(j) && QuoteFree(j) && Here(listed, text, i, Print(j, level, style))
    ensures ValueRedacted(listed, text, i, j, level, style)
    decreases j, 3
  {
    hide Becomes, JsonKeys, At, Tail;
    match j
    case Scalar(t) =>
      TokenIsInert(t);
      InertBecomesItself(listed, text, i, t);
    case Str(b) =>
      NoMatchInString(listed, text, i, b, level);
      BecomesItself(listed, text, i, PrintString(b, level));
    case Arr(es) =>
      RedactsElems(listed, text, i + 1, es, level, style) by {
        BracketLayout(text, i, "[", PrintElems(es, level, style), "]");
      }
      BracketedBecomes(listed, text, i, "[", PrintElems(es, level, style), "]",
                       PrintElems(RedactedElems(listed, level, es), level, style),
                       ElemHits(listed, level, es));
    case Obj(fs) =>
      RedactsFields(listed, text, i + 1, fs, level, style) by {
        BracketLayout(text, i, "{", PrintFields(fs, level, style), "}");
      }
      BracketedBecomes(listed, text, i, "{", PrintFields(fs, level, style), "}",
                       PrintFields(RedactedFields(listed, level, fs), level, style),
                       FieldHits(listed, level, fs));
    case Held(t, layout) =>
      if t.Scalar? {
        HeldTokenIsString(t.token, layout, level, style);
        NoMatchInString(listed, text, i, PlainItems(t.token), level);
        BecomesItself(listed, text, i, Print(j, level, style));
        assert Redacted(listed, 2 * level + 1, t) == t && Hits(listed, 2 * level + 1, t) == 0;
      } else {
        RedactsHeld(listed, text, i, t, layout, level);
      }
  }

  lemma HeldTokenIsString(token: string, layout: Style, level: nat, style: Style)
    requires ValidToken(token)
    ensures Print(Held(Scalar(token), layout), level, style) == PrintString(PlainItems(token), level)
    ensures ValidBody(PlainItems(token)) && QuoteFreeBody(PlainItems(token))
  {
    TokenIsInert(token);
    PlainString(token, level);
    PlainItemsAreValid(token);
  }

  /** A held tree lies between two delimiters, the second of which is a tail for it. */
  lemma HeldLayout(listed: string -> bool, text: string, i: nat, inner: string, level: nat)
    requires At(text, i, Delimiter(level) + inner + Delimiter(level))
    ensures At(text, i, Delimiter(level)) && Here(listed, text, i + level + 1, inner)
    ensures At(text, i + level + 1 + |inner|, Delimiter(level))
  {
    AtSplit3(text, i, Delimiter(level), inner, Delimiter(level));
    AtChar(text, i + level + 1 + |inner|, Delimiter(level), 0);
  }

  /** A match inside a delimiter takes the delimiter's quote. */
  lemma MatchInDelimiter(listed: string -> bool, text: string, i: nat, level: nat, s: nat) returns (q2: nat)
    requires At(text, i, Delimiter(level)) && i <= s <= i + level && MatchAt(listed, text, s).Some?
    ensures i + level < q2 < |text| && text[q2] == Quote && listed(text[i + level + 1..ChunkEnd(text, i + level + 1)])
  {
    AtAll(text, i, Delimiter(level));
    var q;
    q, q2 := MatchShape(listed, text, s);
    assert text[i + level] == Delimiter(level)[level] == Quote;
    assert forall k | i <= k < i + level :: text[k] == Delimiter(level)[k - i] == Backslash;
  }

  /** Nothing matches from the delimiter that opens a held tree: the tree begins with no key. */
  lemma OpeningPasses(listed: string -> bool, text: string, i: nat, t: Json, layout: Style, level: nat)
    requires JsonKeys(listed) && Valid(t) && !t.Scalar? && At(text, i, Delimiter(level))
    requires At(text, i + level + 1, Print(t, 2 * level + 1, layout))
    ensures NoMatch(listed, text, i, i + level + 1)
  {
    TreeIsNoKey(listed, text, i + level + 1, t, layout, 2 * level + 1);
    hide Print, Valid;
    forall s | i <= s < i + level + 1
      ensures MatchAt(listed, text, s).None?
    {
      NoKeyNoMatch(listed, text, i, level, s);
    }
  }

  lemma NoKeyNoMatch(listed: string -> bool, text: string, i: nat, level: nat, s: nat)
    requires At(text, i, Delimiter(level)) && i <= s <= i + level
    requires !listed(text[i + level + 1..ChunkEnd(text, i + level + 1)])
    ensures MatchAt(listed, text, s).None?
  {
    hide MatchAt, ChunkEnd;
    if MatchAt(listed, text, s).Some? {
      var q2 := MatchInDelimiter(listed, text, i, level, s);
    }
  }

  /** The text of an array, an object or a string does not begin with a listed key. */
  lemma TreeIsNoKey(listed: string -> bool, text: string, i: nat, t: Json, style: Style, level: nat)
    requires JsonKeys(listed) && Valid(t) && !t.Scalar? && At(text, i, Print(t, level, style))
    ensures i < |text| && !listed(text[i..ChunkEnd(text, i)])
  {
    TextBegins(t, level, style);
    AtChar(text, i, Print(t, level, style), 0);
    hide Print, Valid, ChunkEnd, JsonKeys;
    if listed(text[i..ChunkEnd(text, i)]) {
      KeyBegins(listed, text, i);
    }
  }

  /** How a listed key begins. */
  lemma KeyBegins(listed: string -> bool, text: string, k: nat)
    requires JsonKeys(listed) && k < |text| && listed(text[k..ChunkEnd(text, k)])
    ensures text[k] != Quote && text[k] != Backslash && !IsStructural(text[k])
  {
    ListedIsPlain(listed, text[k..ChunkEnd(text, k)]);
  }

  /** Nor from the one that closes it, when a value's tail follows. */
  lemma ClosingPasses(listed: string -> bool, text: string, e: nat, level: nat)
    requires JsonKeys(listed) && At(text, e, Delimiter(level)) && Tail(listed, text, e + level + 1)
    ensures NoMatch(listed, text, e, e + level + 1)
  {
    hide Tail;
    forall s | e <= s < e + level + 1
      ensures MatchAt(listed, text, s).None?
    {
      if MatchAt(listed, text, s).Some? {
        var q2 := MatchInDelimiter(listed, text, e, level, s);
        NotAtClosingQuote(listed, text, e + level, q2);
      }
    }
  }

  lemma {:induction false} RedactsHeld(listed: string -> bool, text: string, i: nat, t: Json, layout: Style, level: nat)
    requires JsonKeys(listed) && Valid(t) && QuoteFree(t) && !t.Scalar?
    requires Here(listed, text, i, Delimiter(level) + Print(t, 2 * level + 1, layout) + Delimiter(level))
    ensures Becomes(listed, text, i, i + |Delimiter(level) + Print(t, 2 * level + 1, layout) + Delimiter(level)|,
                    Delimiter(level) + Print(Redacted(listed, 2 * level + 1, t), 2 * level + 1, layout) + Delimiter(level),
                    Hits(listed, 2 * level + 1, t))
    decreases t, 4
  {
    hide Becomes, Valid, QuoteFree, Print, At, Tail, JsonKeys, Redacted, Hits, NoMatch;
    var delimiter, inner := Delimiter(level), Print(t, 2 * level + 1, layout);
    var a, e := i + level + 1, i + level + 1 + |inner|;
    var out, hits := Print(Redacted(listed, 2 * level + 1, t), 2 * level + 1, layout), Hits(listed, 2 * level + 1, t);
    HeldLayout(listed, text, i, inner, level);
    RedactsValue(listed, text, a, t, 2 * level + 1, layout);
    OpeningPasses(listed, text, i, t, layout, level);
    BecomesItself(listed, text, i, delimiter);
    ClosingPasses(listed, text, e, level);
    BecomesItself(listed, text, e, delimiter);
    BecomesJoin(listed, text, i, a, e, delimiter, 0, out, hits);
    BecomesJoin(listed, text, i, e, e + |delimiter|, delimiter + out, hits, delimiter, 0);
  }

  lemma TokenIsInert(t: string)
    requires ValidToken(t)
    ensures Quote !in t && Backslash !in t
  {
  }

  lemma BracketLayout(text: string, i: nat, open: string, inner: string, close: string)
    requires At(text, i, open + inner + close) && |open| == |close| == 1 && Closes(close[0])
    ensures Enclosed(text, i + 1, inner)
  {
    AtSplit3(text, i, open, inner, close);
    AtChar(text, i + 1 + |inner|, close, 0);
  }

  lemma ElemsLayout(listed: string -> bool, text: string, i: nat, es: seq<Json>, level: nat, style: Style)
    requires es != [] && Enclosed(text, i, PrintElems(es, level, style))
    ensures var first := Print(es[0], level, style); var rest := PrintElems(es[1..], level, style);
      && Here(listed, text, i, first)
      && (|es| > 1 ==> At(text, i + |first|, Separated(rest, style)))
      && (|es| > 1 ==> Enclosed(text, i + |first| + 1 + style.afterComma, rest))
  {
    hide Enclosed, Here, Print, At;
    assert [es[0]] + es[1..] == es;
    ElemsCons(es[0], es[1..], level, style);
    ListLayout(text, i, Print(es[0], level, style), |es| > 1, PrintElems(es[1..], level, style), style);
    EnclosedTail(listed, text, i, Print(es[0], level, style));
  }

  lemma ElemsStep(listed: string -> bool, text: string, i: nat, es: seq<Json>, level: nat, style: Style)
    requires es != [] && ValueRedacted(listed, text, i, es[0], level, style)
    requires var j := i + |Print(es[0], level, style)|; |es| > 1 ==>
      && At(text, j, Separated(PrintElems(es[1..], level, style), style))
      && ElemsRedacted(listed, text, j + 1 + style.afterComma, es[1..], level, style)
    ensures ElemsRedacted(listed, text, i, es, level, style)
  {
    hide Becomes, At, Print, Hits, Redacted, Separated;
    var rest := es[1..];
    var others := RedactedElems(listed, level, rest);
    ListBecomes(listed, text, i, Print(es[0], level, style), |es| > 1, PrintElems(rest, level, style), style,
                Print(Redacted(listed, level, es[0]), level, style), Hits(listed, level, es[0]),
                PrintElems(others, level, style), ElemHits(listed, level, rest));
    assert [es[0]] + rest == es;
    RedactedSizes(listed, level, rest, []);
    ElemsCons(es[0], rest, level, style);
    ElemsCons(Redacted(listed, level, es[0]), others, level, style);
  }

  lemma {:induction false} RedactsElems(listed: string -> bool, text: string, i: nat, es: seq<Json>, level: nat, style: Style)
    requires JsonKeys(listed) && Enclosed(text, i, PrintElems(es, level, style))
    requires forall k | 0 <= k < |es| :: Valid(es[k]) && QuoteFree(es[k])
    ensures ElemsRedacted(listed, text, i, es, level, style)
    decreases es, 2
  {
    hide *;
    if es == [] {
      NoElems(listed, text, i, level, style);
    } else {
      ElemsLayout(listed, text, i, es, level, style);
      RedactsValue(listed, text, i, es[0], level, style);
      if |es| > 1 {
        RedactsElems(listed, text, i + |Print(es[0], level, style)| + 1 + style.afterComma, es[1..], level, style);
      }
      ElemsStep(listed, text, i, es, level, style);
    }
  }

  lemma NoElems(listed: string -> bool, text: string, i: nat, level: nat, style: Style)
    requires Enclosed(text, i, PrintElems([], level, style))
    ensures ElemsRedacted(listed, text, i, [], level, style)
  {
    InertBecomesItself(listed, text, i, "");
  }

  lemma NoFields(listed: string -> bool, text: string, i: nat, level: nat, style: Style)
    requires Enclosed(text, i, PrintFields([], level, style))
    ensures FieldsRedacted(listed, text, i, [], level, style)
  {
    InertBecomesItself(listed, text, i, "");
  }

  lemma FieldsLayout(text: string, i: nat, fs: seq<Field>, level: nat, style: Style)
    requires fs != [] && Enclosed(text, i, PrintFields(fs, level, style))
    ensures var first := PrintField(fs[0], level, style); var rest := PrintFields(fs[1..], level, style);
      && Enclosed(text, i, first)
      && (|fs| > 1 ==> At(text, i + |first|, Separated(rest, style)))
      && (|fs| > 1 ==> Enclosed(text, i + |first| + 1 + style.afterComma, rest))
  {
    hide Enclosed, PrintField, At;
    assert [fs[0]] + fs[1..] == fs;
    FieldsCons(fs[0], fs[1..], level, style);
    ListLayout(text, i, PrintField(fs[0], level, style), |fs| > 1, PrintFields(fs[1..], level, style), style);
  }

  lemma FieldsStep(listed: string -> bool, text: string, i: nat, fs: seq<Field>, level: nat, style: Style)
    requires fs != [] && FieldRedacted(listed, text, i, fs[0], level, style)
    requires var j := i + |PrintField(fs[0], level, style)|; |fs| > 1 ==>
      && At(text, j, Separated(PrintFields(fs[1..], level, style), style))
      && FieldsRedacted(listed, text, j + 1 + style.afterComma, fs[1..], level, style)
    ensures FieldsRedacted(listed, text, i, fs, level, style)
  {
    hide Becomes, At, PrintField, ValueHits, RedactedValue, Separated;
    var rest := fs[1..];
    var f, others := Field(fs[0].key, RedactedValue(listed, level, fs[0])), RedactedFields(listed, level, rest);
    ListBecomes(listed, text, i, PrintField(fs[0], level, style), |fs| > 1, PrintFields(rest, level, style), style,
                PrintField(f, level, style), ValueHits(listed, level, fs[0]),
                PrintFields(others, level, style), FieldHits(listed, level, rest));
    assert [fs[0]] + rest == fs;
    RedactedSizes(listed, level, [], rest);
    FieldsCons(fs[0], rest, level, style);
    FieldsCons(f, others, level, style);
  }

  lemma {:induction false} RedactsFields(listed: string -> bool, text: string, i: nat, fs: seq<Field>, level: nat, style: Style)
    requires JsonKeys(listed) && Enclosed(text, i, PrintFields(fs, level, style))
    requires forall k | 0 <= k < |fs| :: ValidField(fs[k]) && QuoteFreeField(fs[k])
    ensures FieldsRedacted(listed, text, i, fs, level, style)
    decreases fs, 2
  {
    hide *;
    if fs == [] {
      NoFields(listed, text, i, level, style);
    } else {
      FieldsLayout(text, i, fs, level, style);
      RedactsField(listed, text, i, fs[0], level, style);
      if |fs| > 1 {
        RedactsFields(listed, text, i + |PrintField(fs[0], level, style)| + 1 + style.afterComma, fs[1..], level, style);
      }
      FieldsStep(listed, text, i, fs, level, style);
    }
  }

  lemma {:induction false} RedactsField(listed: string -> bool, text: string, i: nat, f: Field, level: nat, style: Style)
    requires JsonKeys(listed) && Enclosed(text, i, PrintField(f, level, style))
    requires ValidField(f) && QuoteFreeField(f)
    ensures FieldRedacted(listed, text, i, f, level, style)
    decreases f, 1
  {
    FieldLayout(listed, text, i, f, level, style);
    if Replaces(listed, level, f) {
      ReplacedField(listed, text, i, f, level, style);
    } else {
      KeptField(listed, text, i, f, level, style);
    }
  }

  lemma ReplacedField(listed: string -> bool, text: string, i: nat, f: Field, level: nat, style: Style)
    requires JsonKeys(listed) && HeadAt(text, i, f.key, level, style) && Replaces(listed, level, f)
    requires ScannedValue(text, i + |FieldHead(f.key, level, style)|, f.value, level, style)
    ensures FieldRedacted(listed, text, i, f, level, style)
  {
    hide Becomes, JsonKeys, HeadAt, Print, FieldHead, ScannedValue, Replaces, PlainItems, Redacted, Hits, Placeholder;
    HeadBecomes(listed, text, i, f, level, style);
    PrintPlaceholder(level, style);
  }

  lemma {:induction false} KeptField(listed: string -> bool, text: string, i: nat, f: Field, level: nat, style: Style)
    requires JsonKeys(listed) && ValidField(f) && QuoteFreeField(f) && !Replaces(listed, level, f)
    requires Enclosed(text, i, PrintField(f, level, style))
    ensures FieldRedacted(listed, text, i, f, level, style)
    decreases f, 0
  {
    hide Becomes, JsonKeys, HeadAt, Print, FieldHead, ScannedValue, Replaces, Redacted, Hits, Enclosed, Valid, QuoteFree, Here;
    var head := FieldHead(f.key, level, style);
    FieldLayout(listed, text, i, f, level, style);
    RedactsValue(listed, text, i + |head|, f.value, level, style);
    HeadBecomes(listed, text, i, f, level, style);
    BecomesJoin(listed, text, i, i + |head|, i + |head| + |Print(f.value, level, style)|, head, 0,
                Print(Redacted(listed, level, f.value), level, style), Hits(listed, level, f.value));
  }

  lemma PrintPlaceholder(level: nat, style: Style)
    ensures Print(PlaceholderString, level, style) == Placeholder(level)
  {
    PlainString("[REDACTED:JSON_FIELD]", level);
    hide PlainItems;
  }

  lemma PlainString(s: string, level: nat)
    requires Quote !in s && Backslash !in s
    ensures PrintString(PlainItems(s), level) == Delimiter(level) + s + Delimiter(level)
  {
    PlainItemsSpell(s);
    LiftPlain(s, level);
  }

  lemma {:induction false} PlainItemsSpell(s: string)
    ensures Literal(PlainItems(s)) == s
  {
    if s != "" {
      PlainItemsSpell(s[1..]);
      var items := PlainItems(s);
      assert items[0] == Plain(s[0]) && items[1..] == PlainItems(s[1..]);
    }
  }

  lemma FieldLayout(listed: string -> bool, text: string, i: nat, f: Field, level: nat, style: Style)
    requires Enclosed(text, i, PrintField(f, level, style)) && ValidField(f) && QuoteFreeField(f)
    ensures HeadAt(text, i, f.key, level, style)
    ensures var v := i + |FieldHead(f.key, level, style)|;
      Here(listed, text, v, Print(f.value, level, style)) && ScannedValue(text, v, f.value, level, style)
  {
    hide FieldHead, Valid, Print, ScannedValue, Here, QuoteFree;
    var head, value := FieldHead(f.key, level, style), Print(f.value, level, style);
    var v := i + |head|;
    AtSplit(text, i, head, value);
    ValueBegins(f.value, level, style);
    AtChar(text, v, value, 0);
    EnclosedTail(listed, text, v, value);
    ValueIsScanned(text, v, f.value, level, style);
  }

  /** A printed value is not empty and does not begin with a space. */
  lemma ValueBegins(j: Json, level: nat, style: Style)
    requires Valid(j)
    ensures |Print(j, level, style)| > 0 && !IsSpace(Print(j, level, style)[0])
  {
    TextBegins(j, level, style);
  }

  // ---------------------------------------------------------------------
  // The theorems
  // ---------------------------------------------------------------------

  /** A rest of the line with no quote in it, that does not read as the colon of a key. */
  ghost predicate PlainTail(post: string) {
    Quote !in post && (SkipSpaces(post, 0) < |post| ==> post[SkipSpaces(post, 0)] != ':')
  }

  lemma {:induction false} SkipSpacesShift(pre: string, post: string, i: nat)
    requires i <= |post|
    ensures SkipSpaces(pre + post, |pre| + i) == |pre| + SkipSpaces(post, i)
    decreases |post| - i
  {
    if i < |post| {
      assert (pre + post)[|pre| + i] == post[i];
      if IsSpace(post[i]) {
        SkipSpacesShift(pre, post, i + 1);
      }
    }
  }

  lemma NoQuoteAfter(text: string, front: string, post: string)
    requires text == front + post && Quote !in post
    ensures forall k | |front| <= k < |text| :: text[k] != Quote
  {
    forall k | |front| <= k < |text|
      ensures text[k] != Quote
    {
      assert text[k] == post[k - |front|];
    }
  }

  lemma TailOfLine(listed: string -> bool, text: string, front: string, post: string)
    requires text == front + post && PlainTail(post)
    ensures Tail(listed, text, |front|)
  {
    NoQuoteAfter(text, front, post);
    SkipSpacesShift(front, post, 0);
    hide SkipSpaces, ChunkEnd;
  }

  /** A beginning of the line with no quote in it, not ending in a backslash. */
  predicate PlainLead(pre: string) {
    Quote !in pre && (pre != "" ==> pre[|pre| - 1] != Backslash)
  }

  lemma NoMatchInLead(listed: string -> bool, text: string, pre: string, s: nat)
    requires At(text, 0, pre) && PlainLead(pre) && s < |pre|
    ensures MatchAt(listed, text, s).None?
  {
    hide ChunkEnd, SkipSpaces;
    AtAll(text, 0, pre);
    RunFacts(text, s);
    var q := s + RunLength(text, s);
    assert q < |pre| by {
      assert text[|pre| - 1] == pre[|pre| - 1];
    }
    assert pre[q] in pre;
  }

  lemma RestBecomesItself(listed: string -> bool, text: string, v: nat)
    requires v <= |text| && forall k | v <= k < |text| :: text[k] != Quote
    ensures Becomes(listed, text, v, |text|, text[v..], 0)
  {
    BecomesItself(listed, text, v, text[v..]);
  }

  lemma LineParts(pre: string, tree: string, post: string)
    ensures var text := pre + tree + post;
      At(text, 0, pre) && At(text, |pre|, tree) && text[|pre| + |tree|..] == post && |text| == |pre| + |tree| + |post|
  {
    var text := pre + tree + post;
    assert At(text, 0, text);
    AtSplit3(text, 0, pre, tree, post);
  }

  /** A line that holds a printed tree where no match begins before the tree and what follows it cannot turn
      it into a key: the tree in it is redacted, the values replaced are counted, and the rest of the line
      is redacted as it would be from there. */
  lemma RedactsLine(listed: string -> bool, pre: string, j: Json, level: nat, style: Style, post: string)
    requires JsonKeys(listed) && Valid(j) && QuoteFree(j)
    requires var text := pre + Print(j, level, style) + post;
      NoMatch(listed, text, 0, |pre|) && Tail(listed, text, |pre| + |Print(j, level, style)|)
    ensures var text := pre + Print(j, level, style) + post;
      RedactFrom(listed, text, 0)
        == After(pre + Print(Redacted(listed, level, j), level, style), Hits(listed, level, j),
                 RedactFrom(listed, text, |pre| + |Print(j, level, style)|))
  {
    var tree := Print(j, level, style);
    var out, hits := Print(Redacted(listed, level, j), level, style), Hits(listed, level, j);
    var text, v := pre + tree + post, |pre| + |tree|;
    LineParts(pre, tree, post);
    hide JsonKeys, Valid, QuoteFree, Print, Redacted, Hits, At, NoMatch, RedactFrom, Tail;
    BecomesItself(listed, text, 0, pre);
    RedactsValue(listed, text, |pre|, j, level, style);
    BecomesJoin(listed, text, 0, |pre|, v, pre, 0, out, hits);
  }

  /** A line with no other quote in it qualifies. */
  lemma PlainLine(listed: string -> bool, pre: string, tree: string, post: string)
    requires PlainLead(pre) && PlainTail(post)
    ensures var text := pre + tree + post; NoMatch(listed, text, 0, |pre|) && Tail(listed, text, |pre| + |tree|)
    ensures var text := pre + tree + post; RedactFrom(listed, text, |pre| + |tree|) == Output(post, 0)
  {
    hide Tail, At, PlainLead, RedactFrom, MatchAt, SkipSpaces, NoMatch, Becomes;
    var text := pre + tree + post;
    LineParts(pre, tree, post);
    TailOfLine(listed, text, pre + tree, post);
    NoQuoteAfter(text, pre + tree, post);
    NoMatchInAnyLead(listed, text, pre);
    RestBecomesItself(listed, text, |pre| + |tree|);
    RestIs(listed, text, |pre| + |tree|);
  }

  lemma NoMatchInAnyLead(listed: string -> bool, text: string, pre: string)
    requires At(text, 0, pre) && PlainLead(pre)
    ensures NoMatch(listed, text, 0, |pre|)
  {
    hide MatchAt;
    forall s | 0 <= s < |pre|
      ensures MatchAt(listed, text, s).None?
    {
      NoMatchInLead(listed, text, pre, s);
    }
  }

  lemma RestIs(listed: string -> bool, text: string, v: nat)
    requires v <= |text| && Becomes(listed, text, v, |text|, text[v..], 0)
    ensures RedactFrom(listed, text, v) == Output(text[v..], 0)
  {
    assert text[v..] + "" == text[v..];
  }

  lemma RedactsPlainLine(listed: string -> bool, pre: string, j: Json, level: nat, style: Style, post: string)
    requires JsonKeys(listed) && Valid(j) && QuoteFree(j) && PlainLead(pre) && PlainTail(post)
    ensures RedactFrom(listed, pre + Print(j, level, style) + post, 0)
         == Output(pre + Print(Redacted(listed, level, j), level, style) + post, Hits(listed, level, j))
  {
    hide JsonKeys, Valid, QuoteFree, Print, Redacted, Hits, NoMatch, RedactFrom, Tail, PlainLead, PlainTail;
    PlainLine(listed, pre, Print(j, level, style), post);
    RedactsLine(listed, pre, j, level, style, post);
  }

  lemma {:induction false} KnownLevels(k: nat)
    ensures LevelOf(k) >= k && (KnownLevel(LevelOf(k)) <==> k <= 3)
  {
    if k > 0 {
      KnownLevels(k - 1);
    }
    assert LevelOf(0) == 0 && LevelOf(1) == 1 && LevelOf(2) == 3 && LevelOf(3) == 7 && LevelOf(4) == 15;
  }

  /** No other number of backslashes is recognised. */
  lemma KnownLevelsExactly(level: nat)
    ensures KnownLevel(level) <==> exists k: nat :: k <= 3 && LevelOf(k) == level
  {
    assert LevelOf(0) == 0 && LevelOf(1) == 1 && LevelOf(2) == 3 && LevelOf(3) == 7;
    if k: nat :| k <= 3 && LevelOf(k) == level {
      assert k == 0 || k == 1 || k == 2 || k == 3;
    }
  }

  lemma {:induction false} RedactedStaysValid(listed: string -> bool, level: nat, j: Json)
    requires Valid(j) && QuoteFree(j)
    ensures Valid(Redacted(listed, level, j)) && QuoteFree(Redacted(listed, level, j))
    decreases j, 1
  {
    match j
    case Scalar(_) =>
    case Str(_) =>
    case Arr(es) => ElemsStayValid(listed, level, es);
    case Obj(fs) => FieldsStayValid(listed, level, fs);
    case Held(t, _) => RedactedStaysValid(listed, 2 * level + 1, t);
  }

  lemma {:induction false} ElemsStayValid(listed: string -> bool, level: nat, es: seq<Json>)
    requires forall k | 0 <= k < |es| :: Valid(es[k]) && QuoteFree(es[k])
    ensures forall k | 0 <= k < |RedactedElems(listed, level, es)| ::
              Valid(RedactedElems(listed, level, es)[k]) && QuoteFree(RedactedElems(listed, level, es)[k])
    decreases es, 0
  {
    if es != [] {
      RedactedStaysValid(listed, level, es[0]);
      ElemsStayValid(listed, level, es[1..]);
    }
  }

  lemma {:induction false} FieldsStayValid(listed: string -> bool, level: nat, fs: seq<Field>)
    requires forall k | 0 <= k < |fs| :: ValidField(fs[k]) && QuoteFreeField(fs[k])
    ensures forall k | 0 <= k < |RedactedFields(listed, level, fs)| ::
              ValidField(RedactedFields(listed, level, fs)[k]) && QuoteFreeField(RedactedFields(listed, level, fs)[k])
    decreases fs, 0
  {
    if fs != [] {
      hide RedactedValue, ValidField, QuoteFreeField;
      FieldStaysValid(listed, level, fs[0]);
      FieldsStayValid(listed, level, fs[1..]);
    }
  }

  lemma {:induction false} FieldStaysValid(listed: string -> bool, level: nat, f: Field)
    requires ValidField(f) && QuoteFreeField(f)
    ensures var g := Field(f.key, RedactedValue(listed, level, f)); ValidField(g) && QuoteFreeField(g)
    decreases f, 0
  {
    hide PlainItems, Redacted, Redactable;
    RedactedStaysValid(listed, level, f.value);
    PlainItemsAreValid("[REDACTED:JSON_FIELD]");
  }

  lemma {:induction false} PlainItemsAreValid(s: string)
    requires Quote !in s && Backslash !in s
    ensures ValidBody(PlainItems(s)) && QuoteFreeBody(PlainItems(s))
  {
    if s != "" {
      PlainItemsAreValid(s[1..]);
    }
  }

  /** A redacted tree has nothing left to redact. */
  lemma {:induction false} NothingLeft(listed: string -> bool, level: nat, j: Json)
    ensures Redacted(listed, level, Redacted(listed, level, j)) == Redacted(listed, level, j)
    ensures Hits(listed, level, Redacted(listed, level, j)) == 0
    decreases j, 1
  {
    match j
    case Scalar(_) =>
    case Str(_) =>
    case Arr(es) => NothingLeftInElems(listed, level, es);
    case Obj(fs) => NothingLeftInFields(listed, level, fs);
    case Held(t, _) => NothingLeft(listed, 2 * level + 1, t);
  }

  lemma {:induction false} NothingLeftInElems(listed: string -> bool, level: nat, es: seq<Json>)
    ensures var once := RedactedElems(listed, level, es);
            RedactedElems(listed, level, once) == once && ElemHits(listed, level, once) == 0
    decreases es, 0
  {
    if es != [] {
      NothingLeft(listed, level, es[0]);
      NothingLeftInElems(listed, level, es[1..]);
      var once := RedactedElems(listed, level, es);
      assert once[1..] == RedactedElems(listed, level, es[1..]);
    }
  }

  lemma {:induction false} NothingLeftInFields(listed: string -> bool, level: nat, fs: seq<Field>)
    ensures var once := RedactedFields(listed, level, fs);
            RedactedFields(listed, level, once) == once && FieldHits(listed, level, once) == 0
    decreases fs, 0
  {
    if fs != [] {
      hide RedactedValue, ValueHits;
      var once := RedactedFields(listed, level, fs);
      NothingLeftInField(listed, level, fs[0]);
      NothingLeftInFields(listed, level, fs[1..]);
      assert once[1..] == RedactedFields(listed, level, fs[1..]);
    }
  }

  lemma {:induction false} NothingLeftInField(listed: string -> bool, level: nat, f: Field)
    ensures var g := Field(f.key, RedactedValue(listed, level, f));
            RedactedValue(listed, level, g) == g.value && ValueHits(listed, level, g) == 0
    decreases f, 0
  {
    hide PlainItems, Redactable;
    NothingLeft(listed, level, f.value);
    PlaceholderIsKept();
    RedactableSurvives(listed, level, f.value);
  }

  /** Redacting inside a value does not make it one to replace, or stop it being one. */
  lemma RedactableSurvives(listed: string -> bool, level: nat, j: Json)
    ensures Redactable(Redacted(listed, level, j)) == Redactable(j)
  {
  }

  lemma PlaceholderIsKept()
    ensures !Redactable(PlaceholderString)
  {
    PlainItemsSpell("[REDACTED:JSON_FIELD]");
    PlaceholderBegins();
    hide PlainItems, Literal, IsWord;
  }

  lemma PlaceholderBegins()
    ensures RedactedPrefix <= "[REDACTED:JSON_FIELD]"
  {
    assert "[REDACTED:JSON_FIELD]"[..10] == "[REDACTED:";
  }

  /** Beyond the levels the program recognises, the tree is left as it is. */
  lemma {:induction false} UnknownLevelKeeps(listed: string -> bool, level: nat, j: Json)
    requires level > 7
    ensures Redacted(listed, level, j) == j && Hits(listed, level, j) == 0
    decreases j, 1
  {
    match j
    case Scalar(_) =>
    case Str(_) =>
    case Arr(es) => UnknownLevelKeepsElems(listed, level, es);
    case Obj(fs) => UnknownLevelKeepsFields(listed, level, fs);
    case Held(t, _) => UnknownLevelKeeps(listed, 2 * level + 1, t);
  }

  lemma {:induction false} UnknownLevelKeepsElems(listed: string -> bool, level: nat, es: seq<Json>)
    requires level > 7
    ensures RedactedElems(listed, level, es) == es && ElemHits(listed, level, es) == 0
    decreases es, 0
  {
    if es != [] {
      UnknownLevelKeeps(listed, level, es[0]);
      UnknownLevelKeepsElems(listed, level, es[1..]);
    }
  }

  lemma {:induction false} UnknownLevelKeepsFields(listed: string -> bool, level: nat, fs: seq<Field>)
    requires level > 7
    ensures RedactedFields(listed, level, fs) == fs && FieldHits(listed, level, fs) == 0
    decreases fs, 1
  {
    hide RedactedValue, ValueHits;
    if fs != [] {
      UnknownLevelKeepsField(listed, level, fs[0]);
      UnknownLevelKeepsFields(listed, level, fs[1..]);
    }
  }

  lemma {:induction false} UnknownLevelKeepsField(listed: string -> bool, level: nat, f: Field)
    requires level > 7
    ensures RedactedValue(listed, level, f) == f.value && ValueHits(listed, level, f) == 0
    decreases f, 0
  {
    hide PlainItems, Redacted, Hits, Redactable;
    UnknownLevelKeeps(listed, level, f.value);
  }

  /** The main theorem: for every tree whose strings spell no quote, but may hold the text of such a tree,
      serialised and then escaped k times, in any line that does not read on as a key: redacting the text
      is redacting the tree. From k = 4 on, the tree is left as it is. */
  lemma RedactsEscapedTree(listed: string -> bool, pre: string, j: Json, k: nat, style: Style, post: string)
    requires JsonKeys(listed) && Valid(j) && QuoteFree(j)
    requires var tree := EscapeTimes(Print(j, 0, style), k); var text := pre + tree + post;
      NoMatch(listed, text, 0, |pre|) && Tail(listed, text, |pre| + |tree|)
    ensures var tree := EscapeTimes(Print(j, 0, style), k); var text := pre + tree + post;
      RedactFrom(listed, text, 0)
        == After(pre + EscapeTimes(Print(Redacted(listed, LevelOf(k), j), 0, style), k), Hits(listed, LevelOf(k), j),
                 RedactFrom(listed, text, |pre| + |tree|))
    ensures k > 3 ==> Redacted(listed, LevelOf(k), j) == j && Hits(listed, LevelOf(k), j) == 0
  {
    hide *;
    var level := LevelOf(k);
    PrintedAndEscaped(j, k, style);
    RedactedStaysValid(listed, level, j);
    PrintedAndEscaped(Redacted(listed, level, j), k, style);
    if k > 3 {
      BeyondKnown(k);
      UnknownLevelKeeps(listed, level, j);
    }
    RedactsLine(listed, pre, j, level, style, post);
  }

  lemma BeyondKnown(k: nat)
    requires k > 3
    ensures LevelOf(k) > 7
  {
    KnownLevels(k - 1);
    assert LevelOf(1) == 1 && LevelOf(2) == 3 && LevelOf(3) == 7;
  }

  /** Redaction is idempotent on such text, and the second run replaces nothing. */
  lemma RedactionIsIdempotent(listed: string -> bool, pre: string, j: Json, k: nat, style: Style, post: string)
    requires JsonKeys(listed) && Valid(j) && QuoteFree(j) && PlainLead(pre) && PlainTail(post)
    ensures var once := RedactFrom(listed, pre + EscapeTimes(Print(j, 0, style), k) + post, 0).text;
            RedactFrom(listed, once, 0) == Output(once, 0)
  {
    hide *;
    var level := LevelOf(k);
    var once := Redacted(listed, level, j);
    PrintedAndEscaped(j, k, style);
    RedactsPlainLine(listed, pre, j, level, style, post);
    RedactedStaysValid(listed, level, j);
    NothingLeft(listed, level, j);
    RedactsPlainLine(listed, pre, once, level, style, post);
  }
}
