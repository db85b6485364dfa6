/** Fitting a prompt under its cap by trimming only the logs: src/core/rejection_context.py. */
module PromptFit {
  datatype Section = Section(heading: string, body: string)

  const MinLogRoom: int := 2000
  const Omitted: string := "The logs were omitted: the rest of this prompt already fills REJECTION_PROMPT_MAX_CHARS."
  const MarkerHead: string := "\n\n... "
  const MarkerTail: string := " characters omitted from the middle of this trace (REJECTION_PROMPT_MAX_CHARS) ...\n\n"

  // ---------------------------------------------------------------------
  // The printed count
  // ---------------------------------------------------------------------

  function Digit(n: nat): char
    requires n < 10
  {
    '0' + n as char
  }

  function Decimal(n: nat): string {
    if n < 10 then [Digit(n)] else Decimal(n / 10) + [Digit(n % 10)]
  }

  function Value(s: string): int {
    if s == [] then 0 else 10 * Value(s[..|s| - 1]) + (s[|s| - 1] as int - '0' as int)
  }

  /** The count as printed reads back as the count, in digits, without a leading zero. */
  lemma {:induction false} DecimalReadsBack(n: nat)
    ensures Value(Decimal(n)) == n && |Decimal(n)| > 0
    ensures (forall k | 0 <= k < |Decimal(n)| :: '0' <= Decimal(n)[k] <= '9') && (n > 0 ==> Decimal(n)[0] != '0')
  {
    if n < 10 {
      assert [Digit(n)][..0] == [];
    } else {
      DecimalReadsBack(n / 10);
      var s := Decimal(n);
      assert s[..|s| - 1] == Decimal(n / 10);
    }
  }

  /** A smaller count is never printed longer. */
  lemma {:induction false} ShorterWhenSmaller(m: nat, n: nat)
    requires m <= n
    ensures |Decimal(m)| <= |Decimal(n)|
  {
    if n >= 10 && m >= 10 {
      ShorterWhenSmaller(m / 10, n / 10);
    }
  }

  function Marker(n: nat): string { MarkerHead + Decimal(n) + MarkerTail }

  // ---------------------------------------------------------------------
  // Rendering
  // ---------------------------------------------------------------------

  function Rendered(s: Section): string { "### " + s.heading + "\n" + s.body }

  function Render(sections: seq<Section>): string {
    if sections == [] then ""
    else if |sections| == 1 then Rendered(sections[0])
    else Rendered(sections[0]) + "\n\n" + Render(sections[1..])
  }

  function WithBody(sections: seq<Section>, at: nat, body: string): seq<Section>
    requires at < |sections|
  {
    sections[at := sections[at].(body := body)]
  }

  /** The text above and below the body of one section. */
  function Above(sections: seq<Section>, at: nat): string
    requires at < |sections|
  {
    if at == 0 then "### " + sections[0].heading + "\n" else Rendered(sections[0]) + "\n\n" + Above(sections[1..], at - 1)
  }

  function Below(sections: seq<Section>, at: nat): string
    requires at < |sections|
  {
    if at + 1 == |sections| then "" else "\n\n" + Render(sections[at + 1..])
  }

  lemma {:induction false} BelowRest(sections: seq<Section>, at: nat)
    requires 0 < at < |sections|
    ensures Below(sections, at) == Below(sections[1..], at - 1)
  {
    if at + 1 < |sections| {
      assert sections[1..][at..] == sections[at + 1..];
    }
  }

  /** Whatever body the section is given, the text around it is the same. */
  lemma {:induction false} RenderAround(sections: seq<Section>, at: nat, body: string)
    requires at < |sections|
    ensures Render(WithBody(sections, at, body)) == Above(sections, at) + body + Below(sections, at)
  {
    var changed := WithBody(sections, at, body);
    if at == 0 {
      assert changed[1..] == sections[1..];
      if |sections| == 1 {
        assert Above(sections, 0) + body + "" == Rendered(changed[0]);
      } else {
        assert Rendered(changed[0]) == Above(sections, 0) + body;
        assert Above(sections, 0) + body + "\n\n" + Render(sections[1..])
            == Above(sections, 0) + body + ("\n\n" + Render(sections[1..]));
      }
    } else {
      RenderAround(sections[1..], at - 1, body);
      BelowRest(sections, at);
      assert changed[1..] == WithBody(sections[1..], at - 1, body) && changed[0] == sections[0];
      var head, above, below := Rendered(sections[0]) + "\n\n", Above(sections[1..], at - 1), Below(sections, at);
      assert head + (above + body + below) == head + above + body + below;
    }
  }

  // ---------------------------------------------------------------------
  // Fitting
  // ---------------------------------------------------------------------

  function Room(sections: seq<Section>, at: nat, cap: int): int
    requires at < |sections|
  {
    cap - |Render(WithBody(sections, at, ""))|
  }

  /** How much of each end of the logs is kept, sized against the widest the count can be. */
  function Keep(logs: string, room: int): nat {
    var k := (room - |Marker(|logs|)|) / 2;
    if k > 0 then k else 0
  }

  /** What goes where the logs were, and whether that is less than the logs. */
  function Trimmed(logs: string, room: int): (string, bool) {
    if |logs| <= room then (logs, false)
    else if room >= MinLogRoom then
      var keep := Keep(logs, room);
      if keep > 0 && 2 * keep <= |logs|
      then (logs[..keep] + Marker(|logs| - 2 * keep) + logs[|logs| - keep..], true)
      else (Omitted, true)
    else (Omitted, true)
  }

  function Fit(sections: seq<Section>, at: nat, logs: string, cap: int): (string, bool)
    requires at < |sections|
  {
    var (final, trimmed) := Trimmed(logs, Room(sections, at, cap));
    (Render(WithBody(sections, at, final)), trimmed)
  }

  /** Where the logs do not fit, the two ends kept never meet. */
  lemma EndsNeverMeet(logs: string, room: int)
    requires room < |logs|
    ensures Keep(logs, room) > 0 ==> 2 * Keep(logs, room) < |logs|
  {
  }

  lemma OmittedIsShort()
    ensures |Omitted| < MinLogRoom
  {
  }

  /** The trimmed logs are longer than the room only when the room is too small for the notice itself. */
  lemma TrimmedFits(logs: string, room: int)
    ensures |Trimmed(logs, room).0| <= room <==> |logs| <= room || |Omitted| <= room
    ensures room >= MinLogRoom ==> |Trimmed(logs, room).0| <= room
  {
    OmittedIsShort();
    if room < |logs| && room >= MinLogRoom {
      var keep := Keep(logs, room);
      if keep > 0 {
        EndsNeverMeet(logs, room);
        ShorterWhenSmaller(|logs| - 2 * keep, |logs|);
        assert |logs[..keep] + Marker(|logs| - 2 * keep) + logs[|logs| - keep..]| == 2 * keep + |Marker(|logs| - 2 * keep)|;
      }
    }
  }

  /** In one pass: the prompt is within the cap exactly when the logs, or the notice that they were
      omitted, fit beside the other sections -- so whenever the least room for logs is left; and every
      other section is in it verbatim, around what the logs became. */
  lemma FitIsExact(sections: seq<Section>, at: nat, logs: string, cap: int)
    requires at < |sections|
    ensures var room := Room(sections, at, cap);
      && (|Fit(sections, at, logs, cap).0| <= cap <==> |logs| <= room || |Omitted| <= room)
      && (room >= MinLogRoom ==> |Fit(sections, at, logs, cap).0| <= cap)
    ensures Fit(sections, at, logs, cap).0
         == Above(sections, at) + Trimmed(logs, Room(sections, at, cap)).0 + Below(sections, at)
    ensures Fit(sections, at, logs, cap).1 <==> |logs| > Room(sections, at, cap)
  {
    var room := Room(sections, at, cap);
    RenderAround(sections, at, "");
    RenderAround(sections, at, Trimmed(logs, room).0);
    TrimmedFits(logs, room);
  }

  /** The room that the widest marker takes. */
  function WidestMarker(logs: string): nat { |MarkerHead| + |Decimal(|logs|)| + |MarkerTail| }

  /** Logs that fit are kept whole; where they do not, they are replaced outright when there is less than the
      least room for them, or none beside the marker. */
  lemma KeptWholeOrOmitted(logs: string, room: int)
    ensures |logs| <= room ==> Trimmed(logs, room) == (logs, false)
    ensures |logs| > room && (room < 2000 || room < WidestMarker(logs) + 2) ==> Trimmed(logs, room) == (Omitted, true)
  {
    assert |Marker(|logs|)| == WidestMarker(logs);
  }

  /** Nothing is dropped unsaid, and the room is used: of logs that do not fit where there is room, as much of
      either end is kept as fits beside the marker, and that and the printed count make up the logs. */
  lemma NothingDroppedUnsaid(logs: string, room: int) returns (keep: nat)
    requires |logs| > room >= 2000 && room >= WidestMarker(logs) + 2
    ensures 0 < 2 * keep < |logs|
    ensures Trimmed(logs, room).1 && Trimmed(logs, room).0
         == logs[..keep] + (MarkerHead + Decimal(|logs| - 2 * keep) + MarkerTail) + logs[|logs| - keep..]
    ensures keep + Value(Decimal(|logs| - 2 * keep)) + keep == |logs|
    ensures 0 <= room - |Trimmed(logs, room).0| <= 1 + |Decimal(|logs|)| - |Decimal(|logs| - 2 * keep)|
  {
    keep := KeepsBothEnds(logs, room);
    DecimalReadsBack(|logs| - 2 * keep);
    ShorterWhenSmaller(|logs| - 2 * keep, |logs|);
    TrimmedSize(logs, keep);
    hide Decimal, Value, Trimmed;
  }

  lemma KeepsBothEnds(logs: string, room: int) returns (keep: nat)
    requires |logs| > room >= 2000 && room >= WidestMarker(logs) + 2
    ensures 0 < 2 * keep < |logs| && 0 <= room - WidestMarker(logs) - 2 * keep <= 1
    ensures Trimmed(logs, room) == (logs[..keep] + (MarkerHead + Decimal(|logs| - 2 * keep) + MarkerTail) + logs[|logs| - keep..], true)
  {
    hide Decimal;
    keep := Keep(logs, room);
    assert |Marker(|logs|)| == WidestMarker(logs);
    EndsNeverMeet(logs, room);
  }

  lemma TrimmedSize(logs: string, keep: nat)
    requires 0 < 2 * keep < |logs|
    ensures |logs[..keep] + (MarkerHead + Decimal(|logs| - 2 * keep) + MarkerTail) + logs[|logs| - keep..]|
         == 2 * keep + |MarkerHead| + |Decimal(|logs| - 2 * keep)| + |MarkerTail|
  {
  }

  /** Every section other than the logs is in the prompt verbatim, under its heading. */
  lemma SectionSurvives(sections: seq<Section>, at: nat, logs: string, cap: int, i: nat) returns (before: string, after: string)
    requires at < |sections| && i < |sections| && i != at
    ensures Fit(sections, at, logs, cap).0 == before + ("### " + sections[i].heading + "\n" + sections[i].body) + after
  {
    var final := Trimmed(logs, Room(sections, at, cap)).0;
    var changed := WithBody(sections, at, final);
    before, after := RenderedVerbatim(changed, i);
    assert changed[i] == sections[i];
  }

  lemma {:induction false} RenderedVerbatim(sections: seq<Section>, i: nat) returns (before: string, after: string)
    requires i < |sections|
    ensures Render(sections) == before + ("### " + sections[i].heading + "\n" + sections[i].body) + after
  {
    var text := "### " + sections[i].heading + "\n" + sections[i].body;
    if i == 0 {
      before, after := "", if |sections| == 1 then "" else "\n\n" + Render(sections[1..]);
      assert Render(sections) == text + after;
    } else {
      var b, a := RenderedVerbatim(sections[1..], i - 1);
      before, after := Rendered(sections[0]) + "\n\n" + b, a;
      assert Rendered(sections[0]) + "\n\n" + (b + text + a) == before + text + after;
    }
  }
}
