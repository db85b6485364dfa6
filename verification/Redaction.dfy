/** The redaction scanner of src/log_pipeline/redaction.py.

    The functions are one-pass readings of the text; the methods are the program's own loops
    (backward counting, search and jump), each proved to compute the function of its name. */
module Redaction {
  import opened Options
  import opened JsonText

  // ---------------------------------------------------------------------
  // Where a string ends
  // ---------------------------------------------------------------------

  function Period(level: nat): nat { 2 * (level + 1) }

  /** The length of a backslash run modulo the period, after one more character. */
  function NextRun(run: nat, c: char, level: nat): (r: nat)
    requires run < Period(level)
    ensures r < Period(level)
  {
    if c != Backslash then 0 else if run + 1 == Period(level) then 0 else run + 1
  }

  /** Just past the quote that closes the string read from `i` on; `run` is the length, modulo
      the period, of the backslash run that ends at `i`. */
  function StringEndFrom(text: string, i: nat, run: nat, level: nat): (end: nat)
    requires i <= |text| && run < Period(level)
    ensures i <= end <= |text|
    decreases |text| - i
  {
    if i == |text| then i
    else if text[i] == Quote && run == level then i + 1
    else StringEndFrom(text, i + 1, NextRun(run, text[i], level), level)
  }

  function BackslashRun(text: string, index: nat, floor: nat): nat
    requires floor <= index <= |text|
  {
    if index > floor && text[index - 1] == Backslash then 1 + BackslashRun(text, index - 1, floor) else 0
  }

  /** `n` modulo `p`, counted up one step at a time. */
  function Residue(n: nat, p: nat): (r: nat)
    requires p > 0
    ensures r < p
  {
    if n == 0 then 0 else var r := Residue(n - 1, p); if r + 1 == p then 0 else r + 1
  }

  lemma {:induction false} MultiplesApart(a: nat, b: nat, p: nat)
    requires a < b
    ensures a * p + p <= b * p
    decreases b
  {
    if a + 1 < b {
      MultiplesApart(a, b - 1, p);
    }
  }

  lemma RemainderIsUnique(x: nat, q: nat, r: nat, p: nat)
    requires r < p && x == q * p + r
    ensures x % p == r
  {
    var q' := x / p;
    assert x == q' * p + x % p;
    if q' < q {
      MultiplesApart(q', q, p);
    } else if q < q' {
      MultiplesApart(q, q', p);
    }
  }

  lemma {:induction false} ResidueHasQuotient(n: nat, p: nat) returns (q: nat)
    requires p > 0
    ensures n == q * p + Residue(n, p)
  {
    if n == 0 {
      q := 0;
    } else {
      q := ResidueHasQuotient(n - 1, p);
      if Residue(n - 1, p) + 1 == p {
        q := q + 1;
      }
    }
  }

  lemma ResidueIsRemainder(n: nat, p: nat)
    requires p > 0
    ensures n % p == Residue(n, p)
  {
    var q := ResidueHasQuotient(n, p);
    RemainderIsUnique(n, q, Residue(n, p), p);
  }

  /** The backslash run that ends at `index`, modulo the period. */
  function RunAt(text: string, index: nat, floor: nat, level: nat): nat
    requires floor <= index <= |text|
  {
    Residue(BackslashRun(text, index, floor), Period(level))
  }

  method BackslashesBefore(text: string, index: nat, floor: nat) returns (n: nat)
    requires floor <= index <= |text|
    ensures n == BackslashRun(text, index, floor)
  {
    var count := index - 1;
    while count >= floor && text[count] == Backslash
      invariant floor - 1 <= count < index
      invariant BackslashRun(text, index, floor) == index - 1 - count + BackslashRun(text, count + 1, floor)
    {
      count := count - 1;
    }
    n := index - 1 - count;
  }

  /** `text.find('"', from)`, with the length of the text for "not found". */
  method FindQuote(text: string, from: nat) returns (index: nat)
    requires from <= |text|
    ensures from <= index <= |text|
    ensures index < |text| ==> text[index] == Quote
    ensures forall k | from <= k < index :: text[k] != Quote
  {
    index := from;
    while index < |text| && text[index] != Quote
      invariant from <= index <= |text|
      invariant forall k | from <= k < index :: text[k] != Quote
    {
      index := index + 1;
    }
  }

  lemma {:induction false} SkipToQuote(text: string, i: nat, j: nat, floor: nat, level: nat)
    requires floor <= i <= j <= |text|
    requires forall k | i <= k < j :: text[k] != Quote
    ensures StringEndFrom(text, i, RunAt(text, i, floor, level), level)
         == StringEndFrom(text, j, RunAt(text, j, floor, level), level)
    decreases j - i
  {
    if i < j {
      SkipToQuote(text, i + 1, j, floor, level);
    }
  }

  method StringEnd(text: string, opening: nat, level: nat) returns (end: nat)
    requires opening < |text|
    ensures end == StringEndFrom(text, opening + 1, 0, level)
  {
    var period := 2 * (level + 1);
    var index := opening + 1;
    while true
      invariant opening + 1 <= index <= |text|
      invariant StringEndFrom(text, opening + 1, 0, level)
             == StringEndFrom(text, index, RunAt(text, index, opening + 1, level), level)
      decreases |text| - index
    {
      var from := index;
      index := FindQuote(text, from);
      SkipToQuote(text, from, index, opening + 1, level);
      if index == |text| {
        return |text|;
      }
      var run := BackslashesBefore(text, index, opening + 1);
      ResidueIsRemainder(run, period);
      if run % period == level {
        return index + 1;
      }
      index := index + 1;
    }
  }

  // ---------------------------------------------------------------------
  // Where an object or array ends
  // ---------------------------------------------------------------------

  predicate Opens(c: char) { c == '{' || c == '[' }

  predicate Closes(c: char) { c == '}' || c == ']' }

  function ContainerEndFrom(text: string, i: nat, run: nat, depth: int, level: nat): (end: nat)
    requires i <= |text| && run < Period(level)
    ensures i <= end <= |text| && (i < |text| ==> i < end)
    decreases |text| - i
  {
    if i == |text| then i
    else if text[i] == Quote && run == level then
      ContainerEndFrom(text, StringEndFrom(text, i + 1, 0, level), 0, depth, level)
    else if Opens(text[i]) then ContainerEndFrom(text, i + 1, 0, depth + 1, level)
    else if Closes(text[i]) then
      if depth == 1 then i + 1 else ContainerEndFrom(text, i + 1, 0, depth - 1, level)
    else ContainerEndFrom(text, i + 1, NextRun(run, text[i], level), depth, level)
  }

  lemma {:induction false} StringEndsAtQuote(text: string, i: nat, run: nat, level: nat)
    requires i <= |text| && run < Period(level)
    ensures var end := StringEndFrom(text, i, run, level);
            end < |text| ==> end > i && text[end - 1] == Quote
    decreases |text| - i
  {
    if i < |text| && !(text[i] == Quote && run == level) {
      StringEndsAtQuote(text, i + 1, NextRun(run, text[i], level), level);
    }
  }

  /** The run after one more character, and after a quote. */
  lemma RunStep(text: string, index: nat, floor: nat, level: nat)
    requires floor <= index < |text|
    ensures RunAt(text, index, floor, level) < Period(level)
    ensures RunAt(text, index + 1, floor, level) == NextRun(RunAt(text, index, floor, level), text[index], level)
  {
  }

  lemma RunIsBounded(text: string, index: nat, floor: nat, level: nat)
    requires floor <= index <= |text|
    ensures RunAt(text, index, floor, level) < Period(level)
  {
  }

  lemma NoRunAfterQuote(text: string, index: nat, floor: nat, level: nat)
    requires floor <= index <= |text| && (index > floor ==> text[index - 1] != Backslash)
    ensures RunAt(text, index, floor, level) == 0
  {
  }

  method ContainerEnd(text: string, start: nat, level: nat) returns (end: nat)
    requires start <= |text|
    ensures end == ContainerEndFrom(text, start, 0, 0, level)
  {
    hide StringEndFrom, BackslashRun, Residue;
    NoRunAfterQuote(text, start, start, level);
    var period := 2 * (level + 1);
    var depth, index := 0, start;
    while index < |text|
      invariant start <= index <= |text| && RunAt(text, index, start, level) < Period(level)
      invariant ContainerEndFrom(text, start, 0, 0, level)
             == ContainerEndFrom(text, index, RunAt(text, index, start, level), depth, level)
      decreases |text| - index
    {
      var c := text[index];
      RunStep(text, index, start, level);
      var run := BackslashesBefore(text, index, start);
      ResidueIsRemainder(run, period);
      if c == Quote && run % period == level {
        StringEndsAtQuote(text, index + 1, 0, level);
        index := StringEnd(text, index, level);
        if index < |text| {
          NoRunAfterQuote(text, index, start, level);
        } else {
          RunIsBounded(text, index, start, level);
        }
        continue;
      }
      if Opens(c) {
        depth := depth + 1;
      } else if Closes(c) {
        depth := depth - 1;
        if depth == 0 {
          return index + 1;
        }
      }
      index := index + 1;
    }
    return |text|;
  }

  // ---------------------------------------------------------------------
  // Where a value ends, and whether it is one to redact
  // ---------------------------------------------------------------------

  predicate At(text: string, i: nat, part: string) {
    i + |part| <= |text| && text[i..i + |part|] == part
  }

  predicate KnownLevel(level: nat) { level == 0 || level == 1 || level == 3 || level == 7 }

  predicate StopsScalar(c: char) {
    c == ',' || c == '}' || c == ']' || IsSpace(c) || c == Backslash || c == Quote
  }

  function ScalarEnd(text: string, i: nat): (end: nat)
    requires i <= |text|
    ensures i <= end <= |text|
    decreases |text| - i
  {
    if i < |text| && !StopsScalar(text[i]) then ScalarEnd(text, i + 1) else i
  }

  function LowerChar(c: char): char {
    if 'A' <= c <= 'Z' then (c as int + 32) as char else c
  }

  function Lower(s: string): string { seq(|s|, k requires 0 <= k < |s| => LowerChar(s[k])) }

  predicate IsNullOrBoolean(token: string) {
    Lower(token) == "null" || Lower(token) == "true" || Lower(token) == "false"
  }

  const RedactedPrefix: string := "[REDACTED:"

  function ValueEnd(text: string, start: nat, level: nat): (end: Option<nat>)
    requires start <= |text|
    ensures end.Some? ==> start < end.value <= |text|
  {
    if !KnownLevel(level) || start == |text| then None
    else if At(text, start, Delimiter(level)) then
      var opening := start + level;
      if At(text, opening + 1, RedactedPrefix) then None
      else
        var end := StringEndFrom(text, opening + 1, 0, level);
        if end == opening + 2 + level then None else Some(end)
    else if Opens(text[start]) then
      Some(ContainerEndFrom(text, start, 0, 0, level))
    else
      var end := ScalarEnd(text, start);
      if end == start || IsNullOrBoolean(text[start..end]) then None else Some(end)
  }

  method ValueEndOf(text: string, start: nat, level: nat) returns (end: Option<nat>)
    requires start <= |text|
    ensures end == ValueEnd(text, start, level)
  {
    if !KnownLevel(level) || start == |text| {
      return None;
    }
    if At(text, start, Delimiter(level)) {
      var opening := start + level;
      assert text[opening] == Delimiter(level)[level];
      if At(text, opening + 1, RedactedPrefix) {
        return None;
      }
      var e := StringEnd(text, opening, level);
      return if e == opening + 2 + level then None else Some(e);
    }
    if Opens(text[start]) {
      var e := ContainerEnd(text, start, level);
      return Some(e);
    }
    var e := start;
    while e < |text| && !StopsScalar(text[e])
      invariant start <= e <= |text|
      invariant ScalarEnd(text, start) == ScalarEnd(text, e)
    {
      e := e + 1;
    }
    return if e == start || IsNullOrBoolean(text[start..e]) then None else Some(e);
  }

  // ---------------------------------------------------------------------
  // The key pattern and the rewriting loop
  // ---------------------------------------------------------------------

  /** The configured keys, as the pattern's alternation: `listed(k)` when `k` is a key in some
      letter case. A key is not empty and spells no quote or backslash. */
  ghost predicate PlainKeys(listed: string -> bool) {
    forall k | listed(k) :: |k| > 0 && Quote !in k && Backslash !in k
  }

  datatype Match = Match(level: nat, end: nat)

  function RunLength(text: string, i: nat): (n: nat)
    requires i <= |text|
    ensures i + n <= |text|
    decreases |text| - i
  {
    if i < |text| && text[i] == Backslash then 1 + RunLength(text, i + 1) else 0
  }

  /** The end of the run of characters other than quotes and backslashes. */
  function ChunkEnd(text: string, i: nat): (end: nat)
    requires i <= |text|
    ensures i <= end <= |text|
    decreases |text| - i
  {
    if i < |text| && text[i] != Quote && text[i] != Backslash then ChunkEnd(text, i + 1) else i
  }

  function SkipSpaces(text: string, i: nat): (end: nat)
    requires i <= |text|
    ensures i <= end <= |text|
    decreases |text| - i
  {
    if i < |text| && IsSpace(text[i]) then SkipSpaces(text, i + 1) else i
  }

  /** The key pattern anchored at `s`: a backslash run, a quote, a listed key, the same run, a
      quote, and a colon with optional spaces on both sides. */
  function MatchAt(listed: string -> bool, text: string, s: nat): (m: Option<Match>)
    requires s <= |text|
    ensures m.Some? ==> s < m.value.end <= |text|
  {
    var run := RunLength(text, s);
    var q := s + run;
    if q == |text| || text[q] != Quote then None
    else
      var e := ChunkEnd(text, q + 1);
      if !listed(text[q + 1..e]) || RunLength(text, e) != run then None
      else if e + run == |text| || text[e + run] != Quote then None
      else
        var c := SkipSpaces(text, e + run + 1);
        if c == |text| || text[c] != ':' then None
        else Some(Match(run, SkipSpaces(text, c + 1)))
  }

  datatype Output = Output(text: string, hits: nat)

  function After(prefix: string, hits: nat, rest: Output): Output {
    Output(prefix + rest.text, hits + rest.hits)
  }

  function Placeholder(level: nat): string {
    Delimiter(level) + "[REDACTED:JSON_FIELD]" + Delimiter(level)
  }

  /** The text from `i` on, with every value that follows a match of the key pattern replaced. */
  function RedactFrom(listed: string -> bool, text: string, i: nat): Output
    requires i <= |text|
    decreases |text| - i
  {
    if i == |text| then Output("", 0)
    else
      match MatchAt(listed, text, i)
      case None => After([text[i]], 0, RedactFrom(listed, text, i + 1))
      case Some(m) =>
        match ValueEnd(text, m.end, m.level)
        case None => After(text[i..m.end], 0, RedactFrom(listed, text, m.end))
        case Some(end) => After(text[i..m.end] + Placeholder(m.level), 1, RedactFrom(listed, text, end))
  }

  lemma PassOver(listed: string -> bool, text: string, i: nat)
    requires i < |text| && MatchAt(listed, text, i).None?
    ensures RedactFrom(listed, text, i) == After([text[i]], 0, RedactFrom(listed, text, i + 1))
  {
  }

  /** The pattern matches nowhere in `text[i..j]`. */
  predicate NoMatch(listed: string -> bool, text: string, i: nat, j: nat)
    requires i <= j <= |text|
  {
    forall s | i <= s < j :: MatchAt(listed, text, s).None?
  }

  lemma {:induction false} NoMatchStretch(listed: string -> bool, text: string, i: nat, j: nat)
    requires i <= j <= |text| && NoMatch(listed, text, i, j)
    ensures RedactFrom(listed, text, i) == After(text[i..j], 0, RedactFrom(listed, text, j))
    decreases j - i
  {
    var rest := RedactFrom(listed, text, j);
    if i < j {
      PassOver(listed, text, i);
      NoMatchStretch(listed, text, i + 1, j);
      AfterAfter([text[i]], 0, text[i + 1..j], 0, rest);
      assert [text[i]] + text[i + 1..j] == text[i..j];
    } else {
      assert text[i..j] + rest.text == rest.text;
    }
  }

  /** `pattern.search(text, position)`. */
  method Search(listed: string -> bool, text: string, position: nat) returns (at: nat, found: Option<Match>)
    requires position <= |text|
    ensures position <= at <= |text|
    ensures NoMatch(listed, text, position, at)
    ensures if found.Some? then at < |text| && found == MatchAt(listed, text, at) else at == |text|
  {
    at := position;
    while at < |text|
      invariant position <= at <= |text|
      invariant NoMatch(listed, text, position, at)
    {
      found := MatchAt(listed, text, at);
      if found.Some? {
        return;
      }
      at := at + 1;
    }
    found := None;
  }

  lemma AfterAfter(a: string, h: nat, b: string, g: nat, rest: Output)
    ensures After(a, h, After(b, g, rest)) == After(a + b, h + g, rest)
  {
    assert a + (b + rest.text) == a + b + rest.text;
  }

  /** Without a quote nothing matches, which is what lets the program return at once. */
  lemma {:induction false} NoQuoteNoMatch(listed: string -> bool, text: string, i: nat)
    requires i <= |text| && Quote !in text
    ensures RedactFrom(listed, text, i) == Output(text[i..], 0)
    decreases |text| - i
  {
    if i < |text| {
      NoQuoteNoMatch(listed, text, i + 1);
      assert [text[i]] + text[i + 1..] == text[i..];
    }
  }

  /** What one turn of the loop appends: the text up to the value, and the placeholder. */
  function Piece(text: string, position: nat, m: Match, end: Option<nat>): string
    requires position <= m.end <= |text|
  {
    text[position..m.end] + if end.None? then "" else Placeholder(m.level)
  }

  /** One turn of the loop, from the output so far's point of view. */
  ghost predicate Turns(listed: string -> bool, text: string, position: nat, m: Match)
    requires position <= m.end <= |text|
  {
    var end := ValueEnd(text, m.end, m.level);
    RedactFrom(listed, text, position)
      == After(Piece(text, position, m, end), if end.None? then 0 else 1,
               RedactFrom(listed, text, if end.None? then m.end else end.value))
  }

  lemma TurnAtMatch(listed: string -> bool, text: string, at: nat, m: Match)
    requires at < |text| && MatchAt(listed, text, at) == Some(m)
    ensures Turns(listed, text, at, m)
  {
    assert text[at..m.end] + "" == text[at..m.end];
  }

  lemma TakeMatch(listed: string -> bool, text: string, position: nat, at: nat, m: Match)
    requires position <= at < |text| && NoMatch(listed, text, position, at)
    requires MatchAt(listed, text, at) == Some(m)
    ensures Turns(listed, text, position, m)
  {
    NoMatchStretch(listed, text, position, at);
    TurnAtMatch(listed, text, at, m);
    hide MatchAt, NoMatch, ValueEnd, RedactFrom, Placeholder;
    TurnFrom(listed, text, position, at, m);
  }

  /** The stretch before a match joins the turn at it. */
  lemma TurnFrom(listed: string -> bool, text: string, position: nat, at: nat, m: Match)
    requires position <= at <= m.end <= |text| && Turns(listed, text, at, m)
    requires RedactFrom(listed, text, position) == After(text[position..at], 0, RedactFrom(listed, text, at))
    ensures Turns(listed, text, position, m)
  {
    hide MatchAt, ValueEnd, RedactFrom, Placeholder;
    var end := ValueEnd(text, m.end, m.level);
    PiecesJoin(text, position, at, m, end);
    JoinTurn(text[position..at], Piece(text, at, m, end), if end.None? then 0 else 1,
             RedactFrom(listed, text, if end.None? then m.end else end.value), Piece(text, position, m, end));
  }

  lemma PiecesJoin(text: string, position: nat, at: nat, m: Match, end: Option<nat>)
    requires position <= at <= m.end <= |text|
    ensures Piece(text, position, m, end) == text[position..at] + Piece(text, at, m, end)
  {
    hide Placeholder;
    assert text[position..m.end] == text[position..at] + text[at..m.end];
  }

  lemma JoinTurn(a: string, b: string, h: nat, rest: Output, ab: string)
    requires ab == a + b
    ensures After(a, 0, After(b, h, rest)) == After(ab, h, rest)
  {
    AfterAfter(a, 0, b, h, rest);
  }

  /** The loop's invariant: what is left to do completes `pieces`. */
  ghost predicate Pending(listed: string -> bool, text: string, pieces: string, hits: nat, position: nat) {
    position <= |text|
    && RedactFrom(listed, text, 0) == After(pieces, hits, RedactFrom(listed, text, position))
  }

  lemma Advance(listed: string -> bool, text: string, pieces: string, hits: nat, position: nat, m: Match)
    requires Pending(listed, text, pieces, hits, position)
    requires position <= m.end <= |text| && Turns(listed, text, position, m)
    ensures var end := ValueEnd(text, m.end, m.level);
            Pending(listed, text, pieces + Piece(text, position, m, end), if end.None? then hits else hits + 1,
                    if end.None? then m.end else end.value)
  {
    var end := ValueEnd(text, m.end, m.level);
    AfterAfter(pieces, hits, Piece(text, position, m, end), if end.None? then 0 else 1,
               RedactFrom(listed, text, if end.None? then m.end else end.value));
  }

  lemma Finish(listed: string -> bool, text: string, pieces: string, hits: nat, position: nat)
    requires Pending(listed, text, pieces, hits, position) && NoMatch(listed, text, position, |text|)
    ensures RedactFrom(listed, text, 0) == Output(pieces + text[position..], hits)
  {
    NoMatchStretch(listed, text, position, |text|);
    assert text[position..|text|] + "" == text[position..];
  }

  method RedactJsonFields(listed: string -> bool, text: string) returns (redacted: string, hits: nat)
    ensures Output(redacted, hits) == RedactFrom(listed, text, 0)
  {
    if Quote !in text {
      NoQuoteNoMatch(listed, text, 0);
      return text, 0;
    }
    var pieces, position := "", 0;
    hits := 0;
    assert After("", 0, RedactFrom(listed, text, 0)) == RedactFrom(listed, text, 0);
    while true
      invariant position <= |text|
      invariant Pending(listed, text, pieces, hits, position)
      decreases |text| - position
    {
      var at, found := Search(listed, text, position);
      if found.None? {
        break;
      }
      var level, start := found.value.level, found.value.end;
      var end := ValueEndOf(text, start, level);
      TakeMatch(listed, text, position, at, found.value);
      Advance(listed, text, pieces, hits, position, found.value);
      pieces := pieces + Piece(text, position, found.value, end);
      position := start;
      if end.None? {
        continue;
      }
      position := end.value;
      hits := hits + 1;
    }
    Finish(listed, text, pieces, hits, position);
    redacted := pieces + text[position..];
  }
}
