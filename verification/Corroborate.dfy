/** Comparing a declared root cause with the fetched log lines: src/dlt/corroborate.py. */
module Corroborate {
  import opened Options
  import opened Verdicts

  /** What the patterns of the source read off one line: whether it opens a record, carries the context
      mark, is of warning level or above, is of error level; its text; the exception names in a text;
      and whether it holds a text that says the fetch was skipped, or found nothing. */
  datatype Reader = Reader(
    opens: string -> bool, marked: string -> bool, matchable: string -> bool, isError: string -> bool,
    strip: string -> string, exceptions: string -> set<string>, skips: string -> bool, empties: string -> bool)

  datatype Declared = Declared(root: string, code: string, chain: set<string>)

  // ---------------------------------------------------------------------
  // Attribution
  // ---------------------------------------------------------------------

  /** The last line at or above `i` that opens a record. */
  function NearestOpener(rd: Reader, lines: seq<string>, i: nat): (k: Option<nat>)
    requires i < |lines|
    ensures k.Some? ==> k.value <= i && rd.opens(lines[k.value])
    ensures forall j | (if k.Some? then k.value else -1) < j <= i :: !rd.opens(lines[j])
  {
    if rd.opens(lines[i]) then Some(i) else if i == 0 then None else NearestOpener(rd, lines, i - 1)
  }

  /** Whether line `i` is this packet's own: its record does not carry the context mark. */
  predicate Attributed(rd: Reader, lines: seq<string>, i: nat)
    requires i < |lines|
  {
    var k := NearestOpener(rd, lines, i);
    k.None? || !rd.marked(lines[k.value])
  }

  datatype Scanned = Scanned(text: string, attributed: bool, errorLevel: bool)

  /** The lines of warning level or above among the first `n`, in order, each with its attribution. */
  function ScanTo(rd: Reader, lines: seq<string>, n: nat): seq<Scanned>
    requires n <= |lines|
  {
    if n == 0 then []
    else ScanTo(rd, lines, n - 1)
         + if rd.matchable(lines[n - 1])
           then [Scanned(rd.strip(lines[n - 1]), Attributed(rd, lines, n - 1), rd.isError(lines[n - 1]))] else []
  }

  /** One pass with a flag that only record openers change gives each line the attribution of the
      nearest opener above it. */
  method ScanLines(rd: Reader, lines: seq<string>) returns (scanned: seq<Scanned>)
    ensures scanned == ScanTo(rd, lines, |lines|)
  {
    scanned := [];
    var inherited := true;
    for i := 0 to |lines|
      invariant scanned == ScanTo(rd, lines, i)
      invariant inherited == (i > 0 ==> Attributed(rd, lines, i - 1))
    {
      var line := lines[i];
      if rd.opens(line) {
        inherited := !rd.marked(line);
      }
      if rd.matchable(line) {
        scanned := scanned + [Scanned(rd.strip(line), inherited, rd.isError(line))];
      }
    }
  }

  // ---------------------------------------------------------------------
  // The verdict
  // ---------------------------------------------------------------------

  predicate OccursAt(text: string, needle: string, i: nat) { i + |needle| <= |text| && text[i..i + |needle|] == needle }

  predicate Contains(text: string, needle: string) { exists i | 0 <= i <= |text| :: OccursAt(text, needle, i) }

  function SimpleName(name: string): string {
    if '.' in name then SimpleName(name[1..]) else name
  }

  /** The spellings of the declared root, in the order they are tried. */
  function Needles(d: Declared): seq<string> { [d.root, SimpleName(d.root), d.code] }

  predicate Mentions(scanned: seq<Scanned>, needle: string) {
    needle != "" && exists k | 0 <= k < |scanned| :: Contains(scanned[k].text, needle)
  }

  predicate Explained(d: Declared, name: string) {
    name == d.root || SimpleName(name) == SimpleName(d.root) || (name in d.chain && name != "")
  }

  function ExceptionsIn(rd: Reader, scanned: seq<Scanned>): set<string> {
    set s, e | s in scanned && s.attributed && s.errorLevel && e in rd.exceptions(s.text) :: e
  }

  /** The exceptions on this packet's own error lines that the trace does not explain. */
  function Unexplained(rd: Reader, scanned: seq<Scanned>, d: Declared): set<string> {
    set e | e in ExceptionsIn(rd, scanned) && !Explained(d, e)
  }

  /** The first spelling found, and the first line it is found on. */
  method FindMatch(scanned: seq<Scanned>, d: Declared) returns (found: Option<(nat, nat)>)
    ensures found.None? <==> forall n | 0 <= n < 3 :: !Mentions(scanned, Needles(d)[n])
    ensures found.Some? ==> found.value.0 < 3 && found.value.1 < |scanned|
    ensures found.Some? ==> Needles(d)[found.value.0] != "" && Contains(scanned[found.value.1].text, Needles(d)[found.value.0])
    ensures found.Some? ==> forall n | 0 <= n < found.value.0 :: !Mentions(scanned, Needles(d)[n])
    ensures found.Some? ==> forall k | 0 <= k < found.value.1 :: !Contains(scanned[k].text, Needles(d)[found.value.0])
  {
    var needles := Needles(d);
    for n := 0 to 3
      invariant forall m | 0 <= m < n :: !Mentions(scanned, needles[m])
    {
      if needles[n] == "" {
        continue;
      }
      for k := 0 to |scanned|
        invariant forall j | 0 <= j < k :: !Contains(scanned[j].text, needles[n])
      {
        if Contains(scanned[k].text, needles[n]) {
          return Some((n, k));
        }
      }
    }
    return None;
  }

  predicate Blank(rd: Reader, lines: seq<string>) { forall i | 0 <= i < |lines| :: rd.strip(lines[i]) == "" }

  /** Nothing to compare with: no logs, or a text that says why there are none. */
  predicate NothingRead(rd: Reader, lines: seq<string>) {
    Blank(rd, lines) || exists i | 0 <= i < |lines| :: rd.skips(lines[i]) || rd.empties(lines[i])
  }

  function Judge(rd: Reader, lines: seq<string>, d: Declared): Verdict {
    var scanned := ScanTo(rd, lines, |lines|);
    if NothingRead(rd, lines) || scanned == [] then Unverifiable
    else
      var matched := exists n | 0 <= n < 3 :: Mentions(scanned, Needles(d)[n]);
      var unexplained := Unexplained(rd, scanned, d);
      if matched then if unexplained == {} then Corroborated else Partial
      else if unexplained == {} then Unverifiable else Contradicted
  }

  // ---------------------------------------------------------------------
  // What is cited
  // ---------------------------------------------------------------------

  const MaxCitations: nat := 20

  function ErrorTexts(scanned: seq<Scanned>): seq<string> {
    if scanned == [] then [] else (if scanned[0].errorLevel then [scanned[0].text] else []) + ErrorTexts(scanned[1..])
  }

  /** Each text once, where it first occurs. */
  function Once(texts: seq<string>, seen: set<string>): seq<string> {
    if texts == [] then []
    else if texts[0] in seen then Once(texts[1..], seen)
    else [texts[0]] + Once(texts[1..], seen + {texts[0]})
  }

  /** The matched line leads, then the error lines, each text once, and no more than the limit. */
  function Citations(scanned: seq<Scanned>, matched: Option<nat>): seq<string>
    requires matched.Some? ==> matched.value < |scanned|
  {
    var all := Once((if matched.Some? then [scanned[matched.value].text] else []) + ErrorTexts(scanned), {});
    if |all| <= MaxCitations then all else all[..MaxCitations]
  }

  lemma {:induction false} OnceMeaning(texts: seq<string>, seen: set<string>)
    ensures forall t :: t in Once(texts, seen) <==> t in texts && t !in seen
    ensures forall i, j | 0 <= i < j < |Once(texts, seen)| :: Once(texts, seen)[i] != Once(texts, seen)[j]
  {
    if texts != [] {
      assert texts == [texts[0]] + texts[1..];
      OnceMeaning(texts[1..], if texts[0] in seen then seen else seen + {texts[0]});
    }
  }

  /** Error lines are cited in the order they stand in. */
  lemma {:induction false} ErrorTextsInOrder(a: seq<Scanned>, b: seq<Scanned>)
    ensures ErrorTexts(a + b) == ErrorTexts(a) + ErrorTexts(b)
  {
    if a == [] {
      assert a + b == b;
    } else {
      assert (a + b)[1..] == a[1..] + b;
      ErrorTextsInOrder(a[1..], b);
    }
  }

  lemma {:induction false} ErrorTextsMeaning(scanned: seq<Scanned>, t: string)
    ensures t in ErrorTexts(scanned) <==> exists k | 0 <= k < |scanned| :: scanned[k].errorLevel && scanned[k].text == t
  {
    if scanned != [] {
      ErrorTextsMeaning(scanned[1..], t);
      if k :| 0 < k < |scanned| && scanned[k].errorLevel && scanned[k].text == t {
        assert scanned[1..][k - 1] == scanned[k];
      }
    }
  }

  /** The line a match rests on is always cited, and first; no text is cited twice; only the match and error
      lines are; and short of the limit, every error line is. */
  lemma CitationsCanBeChecked(scanned: seq<Scanned>, matched: Option<nat>, t: string)
    requires matched.Some? ==> matched.value < |scanned|
    ensures var cited := Citations(scanned, matched);
      && |cited| <= MaxCitations && (forall i, j | 0 <= i < j < |cited| :: cited[i] != cited[j])
      && (matched.Some? ==> cited != [] && cited[0] == scanned[matched.value].text)
      && (t in cited ==> (matched.Some? && t == scanned[matched.value].text) || t in ErrorTexts(scanned))
      && (|cited| < MaxCitations && t in ErrorTexts(scanned) ==> t in cited)
  {
    var texts := (if matched.Some? then [scanned[matched.value].text] else []) + ErrorTexts(scanned);
    OnceMeaning(texts, {});
    assert matched.Some? ==> texts != [] && Once(texts, {})[0] == texts[0];
    hide ErrorTexts, Once;
    var all, cited := Once(texts, {}), Citations(scanned, matched);
    assert forall k | 0 <= k < |cited| :: cited[k] == all[k] && all[k] in all;
    assert t in cited ==> t in all;
  }

  datatype Reading = Reading(verdict: Verdict, unexplained: set<string>, citations: seq<string>)

  /** The comparison: its verdict, the exceptions it rests on, and the lines to check it by, of which the
      first is the one the match was found on. */
  method Corroborate(rd: Reader, lines: seq<string>, d: Declared) returns (r: Reading)
    ensures r.verdict == Judge(rd, lines, d)
    ensures var scanned := ScanTo(rd, lines, |lines|);
      && r.unexplained == (if IsDiscrepancy(r.verdict) then Unexplained(rd, scanned, d) else {})
      && (NothingRead(rd, lines) ==> r.citations == [])
      && (r.verdict in {Corroborated, Partial} ==>
            exists k: nat | k < |scanned| :: Names(scanned[k].text, d) && r.citations == Citations(scanned, Some(k)))
      && (!NothingRead(rd, lines) && r.verdict !in {Corroborated, Partial} ==> r.citations == Citations(scanned, None))
  {
    if NothingRead(rd, lines) {
      return Reading(Unverifiable, {}, []);
    }
    var scanned := ScanLines(rd, lines);
    if scanned == [] {
      return Reading(Unverifiable, {}, []);
    }
    var found := FindMatch(scanned, d);
    var unexplained := Unexplained(rd, scanned, d);
    var citations := Citations(scanned, if found.Some? then Some(found.value.1) else None);
    if found.Some? {
      NamesExactly(scanned[found.value.1].text, d);
    }
    if found.Some? && unexplained == {} {
      return Reading(Corroborated, {}, citations);
    }
    if found.Some? {
      assert Mentions(scanned, Needles(d)[found.value.0]);
      return Reading(Partial, unexplained, citations);
    }
    return Reading(if unexplained == {} then Unverifiable else Contradicted, unexplained, citations);
  }

  // ---------------------------------------------------------------------
  // What convicts a trace
  // ---------------------------------------------------------------------

  /** `part` is what follows the last dot of `name`, or all of it. */
  predicate IsLastPart(name: string, part: string) {
    '.' !in part && |part| <= |name| && name[|name| - |part|..] == part && (part == name || name[|name| - |part| - 1] == '.')
  }

  lemma {:induction false} LastPartExactly(name: string, part: string)
    ensures SimpleName(name) == part <==> IsLastPart(name, part)
  {
    if '.' in name {
      LastPartExactly(name[1..], part);
      if IsLastPart(name, part) {
        assert |part| < |name|;
      }
    }
  }

  /** An exception the trace does not name, neither in full, nor by the last part of its root, nor as a link of
      the declared chain. */
  predicate Foreign(d: Declared, name: string) {
    && name != d.root && !(name != "" && name in d.chain)
    && forall k | 0 <= k <= |name| :: IsLastPart(name, name[k..]) ==> !IsLastPart(d.root, name[k..])
  }

  lemma ForeignExactly(d: Declared, name: string)
    ensures Foreign(d, name) <==> !Explained(d, name)
  {
    LastPartExactly(name, SimpleName(name));
    LastPartExactly(d.root, SimpleName(name));
    var k := |name| - |SimpleName(name)|;
    assert name[k..] == SimpleName(name);
    forall j | 0 <= j <= |name| && IsLastPart(name, name[j..])
      ensures name[j..] == SimpleName(name)
    {
      LastPartExactly(name, name[j..]);
    }
  }

  /** Line `i` is an error line of this packet's own and names an exception the trace does not explain. */
  predicate Accuses(rd: Reader, lines: seq<string>, i: nat, d: Declared) {
    && i < |lines| && rd.matchable(lines[i]) && rd.isError(lines[i]) && Attributed(rd, lines, i)
    && exists e | e in rd.exceptions(rd.strip(lines[i])) :: Foreign(d, e)
  }

  lemma {:induction false} ScanMeaning(rd: Reader, lines: seq<string>, n: nat, s: Scanned)
    requires n <= |lines|
    ensures s in ScanTo(rd, lines, n) <==>
      exists i | 0 <= i < n :: rd.matchable(lines[i]) && s == Scanned(rd.strip(lines[i]), Attributed(rd, lines, i), rd.isError(lines[i]))
  {
    if n > 0 {
      ScanMeaning(rd, lines, n - 1, s);
    }
  }

  lemma AccusedMeaning(rd: Reader, lines: seq<string>, d: Declared)
    ensures Unexplained(rd, ScanTo(rd, lines, |lines|), d) != {} <==> exists i :: Accuses(rd, lines, i, d)
  {
    var scanned := ScanTo(rd, lines, |lines|);
    if Unexplained(rd, scanned, d) != {} {
      var e :| e in Unexplained(rd, scanned, d);
      var s :| s in scanned && s.attributed && s.errorLevel && e in rd.exceptions(s.text);
      ScanMeaning(rd, lines, |lines|, s);
      var i :| 0 <= i < |lines| && rd.matchable(lines[i])
               && s == Scanned(rd.strip(lines[i]), Attributed(rd, lines, i), rd.isError(lines[i]));
      ForeignExactly(d, e);
      assert Accuses(rd, lines, i, d);
    }
    if i: nat :| Accuses(rd, lines, i, d) {
      var e :| e in rd.exceptions(rd.strip(lines[i])) && Foreign(d, e);
      ForeignExactly(d, e);
      var s := Scanned(rd.strip(lines[i]), Attributed(rd, lines, i), rd.isError(lines[i]));
      ScanMeaning(rd, lines, |lines|, s);
      assert e in ExceptionsIn(rd, scanned);
      assert e in Unexplained(rd, scanned, d);
    }
  }

  /** The verdict is a discrepancy exactly when the logs could be read and some line accuses. */
  lemma DiscrepancyExactly(rd: Reader, lines: seq<string>, d: Declared)
    ensures IsDiscrepancy(Judge(rd, lines, d)) <==> !NothingRead(rd, lines) && exists i :: Accuses(rd, lines, i, d)
  {
    AccusedMeaning(rd, lines, d);
    var scanned := ScanTo(rd, lines, |lines|);
    assert scanned == [] ==> Unexplained(rd, scanned, d) == {};
    hide Unexplained, Mentions, Accuses, NothingRead;
  }

  /** Line `i` is of warning level or above and holds a spelling of the declared root. */
  predicate Confirms(rd: Reader, lines: seq<string>, i: nat, d: Declared) {
    i < |lines| && rd.matchable(lines[i]) && Names(rd.strip(lines[i]), d)
  }

  /** `text` holds the declared root in full, the last part of its name, or its business code. */
  predicate Names(text: string, d: Declared) {
    || (d.root != "" && Holds(text, d.root))
    || (exists k | 0 <= k <= |d.root| :: IsLastPart(d.root, d.root[k..]) && d.root[k..] != "" && Holds(text, d.root[k..]))
    || (d.code != "" && Holds(text, d.code))
  }

  /** `text` is something, `part`, and something. */
  predicate Holds(text: string, part: string) {
    exists i, j | 0 <= i <= j <= |text| :: text == text[..i] + part + text[j..]
  }

  lemma HoldsExactly(text: string, part: string)
    ensures Contains(text, part) <==> Holds(text, part)
  {
    if i :| 0 <= i <= |text| && OccursAt(text, part, i) {
      assert text == text[..i] + part + text[i + |part|..];
    }
    if i, j :| 0 <= i <= j <= |text| && text == text[..i] + part + text[j..] {
      HeldAt(text, part, i, j);
    }
  }

  lemma HeldAt(text: string, part: string, i: nat, j: nat)
    requires i <= j <= |text| && text == text[..i] + part + text[j..]
    ensures OccursAt(text, part, i)
  {
    assert |text| == i + |part| + |text| - j;
    assert text[i..i + |part|] == (text[..i] + part + text[j..])[i..i + |part|] == part;
  }

  lemma NamedByLastPart(text: string, root: string)
    ensures (exists k | 0 <= k <= |root| :: IsLastPart(root, root[k..]) && root[k..] != "" && Holds(text, root[k..]))
      <==> SimpleName(root) != "" && Holds(text, SimpleName(root))
  {
    hide Holds;
    var part := SimpleName(root);
    LastPartExactly(root, part);
    var n := |root| - |part|;
    assert root[n..] == part;
    if k :| 0 <= k <= |root| && IsLastPart(root, root[k..]) && root[k..] != "" && Holds(text, root[k..]) {
      LastPartExactly(root, root[k..]);
    }
  }

  /** A spelling is found exactly when the text names the root. */
  lemma NamesExactly(text: string, d: Declared)
    ensures (exists n | 0 <= n < 3 :: Needles(d)[n] != "" && Contains(text, Needles(d)[n])) <==> Names(text, d)
  {
    HoldsExactly(text, d.root);
    HoldsExactly(text, d.code);
    HoldsExactly(text, SimpleName(d.root));
    NamedByLastPart(text, d.root);
    hide Contains, Holds, IsLastPart, SimpleName;
    var needles := Needles(d);
    assert needles[0] == d.root && needles[1] == SimpleName(d.root) && needles[2] == d.code;
  }

  lemma ConfirmedMeaning(rd: Reader, lines: seq<string>, d: Declared)
    ensures (exists n | 0 <= n < 3 :: Mentions(ScanTo(rd, lines, |lines|), Needles(d)[n])) <==> exists i :: Confirms(rd, lines, i, d)
  {
    hide Names, Contains, SimpleName, Attributed;
    var scanned := ScanTo(rd, lines, |lines|);
    if n :| 0 <= n < 3 && Mentions(scanned, Needles(d)[n]) {
      var k :| 0 <= k < |scanned| && Contains(scanned[k].text, Needles(d)[n]);
      var s := scanned[k];
      assert s in scanned;
      ScanMeaning(rd, lines, |lines|, s);
      var i :| 0 <= i < |lines| && rd.matchable(lines[i])
               && s == Scanned(rd.strip(lines[i]), Attributed(rd, lines, i), rd.isError(lines[i]));
      NamesExactly(s.text, d);
      assert Confirms(rd, lines, i, d);
    }
    if i: nat :| Confirms(rd, lines, i, d) {
      NamesExactly(rd.strip(lines[i]), d);
      var n :| 0 <= n < 3 && Needles(d)[n] != "" && Contains(rd.strip(lines[i]), Needles(d)[n]);
      var s := Scanned(rd.strip(lines[i]), Attributed(rd, lines, i), rd.isError(lines[i]));
      ScanMeaning(rd, lines, |lines|, s);
      var k :| 0 <= k < |scanned| && scanned[k] == s;
      assert Contains(scanned[k].text, Needles(d)[n]);
      assert Mentions(scanned, Needles(d)[n]);
    }
  }

  /** Each verdict, in terms of the lines: which of them confirm, and which accuse. */
  lemma VerdictExactly(rd: Reader, lines: seq<string>, d: Declared)
    ensures var read := (exists i | 0 <= i < |lines| :: rd.strip(lines[i]) != "")
                        && forall i | 0 <= i < |lines| :: !rd.skips(lines[i]) && !rd.empties(lines[i]);
      var confirmed, accused := exists i :: Confirms(rd, lines, i, d), exists i :: Accuses(rd, lines, i, d);
      && (Judge(rd, lines, d) == Corroborated <==> read && confirmed && !accused)
      && (Judge(rd, lines, d) == Partial <==> read && confirmed && accused)
      && (Judge(rd, lines, d) == Contradicted <==> read && !confirmed && accused)
  {
    AccusedMeaning(rd, lines, d);
    ConfirmedMeaning(rd, lines, d);
    var scanned := ScanTo(rd, lines, |lines|);
    assert scanned == [] ==> Unexplained(rd, scanned, d) == {};
    assert scanned == [] ==> forall needle :: !Mentions(scanned, needle);
    hide Unexplained, Mentions, Accuses, Confirms;
  }

  // ---------------------------------------------------------------------
  // Lines that cannot convict
  // ---------------------------------------------------------------------

  /** Records of other transactions: the block opens one, and every record in it is marked. */
  predicate ContextBlock(rd: Reader, block: seq<string>) {
    (block != [] ==> rd.opens(block[0])) && forall i | 0 <= i < |block| && rd.opens(block[i]) :: rd.marked(block[i])
  }

  predicate WarningBlock(rd: Reader, block: seq<string>) { forall i | 0 <= i < |block| :: !rd.isError(block[i]) }

  predicate Harmless(rd: Reader, block: seq<string>) { ContextBlock(rd, block) || WarningBlock(rd, block) }

  /** A place between records: the end, or just above a line that opens one. */
  predicate Boundary(rd: Reader, lines: seq<string>, at: nat) { at == |lines| || (at < |lines| && rd.opens(lines[at])) }

  function Inserted(lines: seq<string>, at: nat, block: seq<string>): seq<string>
    requires at <= |lines|
  {
    lines[..at] + block + lines[at..]
  }

  lemma {:induction false} OpenersAbove(rd: Reader, lines: seq<string>, at: nat, block: seq<string>, i: nat)
    requires at <= |lines| && i < at
    ensures NearestOpener(rd, Inserted(lines, at, block), i) == NearestOpener(rd, lines, i)
  {
    assert Inserted(lines, at, block)[i] == lines[i];
    if !rd.opens(lines[i]) && i > 0 {
      OpenersAbove(rd, lines, at, block, i - 1);
    }
  }

  lemma {:induction false} OpenersBelow(rd: Reader, lines: seq<string>, at: nat, block: seq<string>, i: nat)
    requires at <= i < |lines| && rd.opens(lines[at])
    ensures NearestOpener(rd, lines, i).Some? && at <= NearestOpener(rd, lines, i).value
    ensures NearestOpener(rd, Inserted(lines, at, block), i + |block|) == Some(NearestOpener(rd, lines, i).value + |block|)
  {
    assert Inserted(lines, at, block)[i + |block|] == lines[i];
    if !rd.opens(lines[i]) {
      OpenersBelow(rd, lines, at, block, i - 1);
    }
  }

  lemma {:induction false} OpenersInside(rd: Reader, lines: seq<string>, at: nat, block: seq<string>, i: nat)
    requires at <= |lines| && i < |block| && ContextBlock(rd, block)
    ensures !Attributed(rd, Inserted(lines, at, block), at + i)
  {
    assert Inserted(lines, at, block)[at + i] == block[i];
    if !rd.opens(block[i]) {
      OpenersInside(rd, lines, at, block, i - 1);
    }
  }

  /** Every line that accuses after an insertion accused before it. */
  lemma AccusedBefore(rd: Reader, lines: seq<string>, at: nat, block: seq<string>, d: Declared, i: nat)
    requires Boundary(rd, lines, at) && Harmless(rd, block) && Accuses(rd, Inserted(lines, at, block), i, d)
    ensures exists j :: Accuses(rd, lines, j, d)
  {
    var after := Inserted(lines, at, block);
    if i < at {
      OpenersAbove(rd, lines, at, block, i);
      assert after[i] == lines[i];
      var k := NearestOpener(rd, lines, i);
      assert k.Some? ==> after[k.value] == lines[k.value];
      assert Accuses(rd, lines, i, d);
    } else if i >= at + |block| {
      var j := i - |block|;
      OpenersBelow(rd, lines, at, block, j);
      assert after[i] == lines[j];
      var k := NearestOpener(rd, lines, j).value;
      assert after[k + |block|] == lines[k];
      assert Accuses(rd, lines, j, d);
    } else {
      assert after[i] == block[i - at];
      if ContextBlock(rd, block) {
        OpenersInside(rd, lines, at, block, i - at);
      }
    }
  }

  lemma ReadBefore(rd: Reader, lines: seq<string>, at: nat, block: seq<string>, d: Declared, i: nat)
    requires at <= |lines| && !NothingRead(rd, Inserted(lines, at, block)) && Accuses(rd, lines, i, d) && rd.strip(lines[i]) != ""
    ensures !NothingRead(rd, lines)
  {
    var after := Inserted(lines, at, block);
    forall j | 0 <= j < |lines|
      ensures !rd.skips(lines[j]) && !rd.empties(lines[j])
    {
      assert lines[j] == after[if j < at then j else j + |block|];
    }
  }

  /** Every line that accused before an insertion still does. */
  lemma AccusedAfter(rd: Reader, lines: seq<string>, at: nat, block: seq<string>, d: Declared, i: nat)
    requires Boundary(rd, lines, at) && Accuses(rd, lines, i, d)
    ensures exists j :: Accuses(rd, Inserted(lines, at, block), j, d)
  {
    var after := Inserted(lines, at, block);
    var k := NearestOpener(rd, lines, i);
    if i < at {
      OpenersAbove(rd, lines, at, block, i);
      assert after[i] == lines[i] && (k.Some? ==> after[k.value] == lines[k.value]);
      assert Accuses(rd, after, i, d);
    } else {
      OpenersBelow(rd, lines, at, block, i);
      assert after[i + |block|] == lines[i] && after[k.value + |block|] == lines[k.value];
      assert Accuses(rd, after, i + |block|, d);
    }
  }

  lemma ReadAfter(rd: Reader, lines: seq<string>, at: nat, block: seq<string>)
    requires at <= |lines| && !NothingRead(rd, lines)
    requires forall j | 0 <= j < |block| :: !rd.skips(block[j]) && !rd.empties(block[j])
    ensures !NothingRead(rd, Inserted(lines, at, block))
  {
    var after := Inserted(lines, at, block);
    var i :| 0 <= i < |lines| && rd.strip(lines[i]) != "";
    assert after[if i < at then i else i + |block|] == lines[i];
    forall j | 0 <= j < |after|
      ensures !rd.skips(after[j]) && !rd.empties(after[j])
    {
      if j < at {
        assert after[j] == lines[j];
      } else if j < at + |block| {
        assert after[j] == block[j - at];
      } else {
        assert after[j] == lines[j - |block|];
      }
    }
  }

  /** One block: lines below error level, or records of other transactions, at the end or just above a record
      opener. Every line that accuses afterwards accused before. */
  lemma OneBlockNeverConvicts(rd: Reader, lines: seq<string>, at: nat, block: seq<string>, d: Declared, i: nat)
    requires at <= |lines| && (at == |lines| || rd.opens(lines[at]))
    requires || (forall k | 0 <= k < |block| :: !rd.isError(block[k]))
             || (block != [] && rd.opens(block[0]) && forall k | 0 <= k < |block| && rd.opens(block[k]) :: rd.marked(block[k]))
    requires Accuses(rd, lines[..at] + block + lines[at..], i, d)
    ensures exists j :: Accuses(rd, lines, j, d)
  {
    AccusedBefore(rd, lines, at, block, d, i);
  }

  datatype Insertion = Insertion(at: nat, block: seq<string>)

  /** Blocks inserted one after another, each at a place between records of what is there by then. */
  function Padded(rd: Reader, lines: seq<string>, insertions: seq<Insertion>): Option<seq<string>>
    decreases |insertions|
  {
    if insertions == [] then Some(lines)
    else
      var x := insertions[0];
      if !Boundary(rd, lines, x.at) || !Harmless(rd, x.block) then None
      else Padded(rd, Inserted(lines, x.at, x.block), insertions[1..])
  }

  /** An exception is never named on a blank line. */
  ghost predicate NamesAreText(rd: Reader) { rd.exceptions("") == {} }

  /** However many blocks of context or of warnings are inserted between records, a discrepancy
      afterwards was one before: a verdict of CORROBORATED or UNVERIFIABLE never becomes one. */
  lemma {:induction false} WeakLinesNeverConvict(rd: Reader, lines: seq<string>, insertions: seq<Insertion>, d: Declared)
    requires NamesAreText(rd) && Padded(rd, lines, insertions).Some?
    requires IsDiscrepancy(Judge(rd, Padded(rd, lines, insertions).value, d))
    ensures IsDiscrepancy(Judge(rd, lines, d))
    decreases |insertions|
  {
    if insertions != [] {
      var x := insertions[0];
      var after := Inserted(lines, x.at, x.block);
      WeakLinesNeverConvict(rd, after, insertions[1..], d);
      DiscrepancyExactly(rd, after, d);
      DiscrepancyExactly(rd, lines, d);
      hide Judge, Padded, NothingRead, Inserted;
      var i :| Accuses(rd, after, i, d);
      AccusedBefore(rd, lines, x.at, x.block, d, i);
      var j :| Accuses(rd, lines, j, d);
      ReadBefore(rd, lines, x.at, x.block, d, j);
    }
  }

  /** A block that does not say the fetch was skipped or empty leaves a discrepancy a discrepancy, too. */
  lemma WeakLinesNeverAcquit(rd: Reader, lines: seq<string>, at: nat, block: seq<string>, d: Declared)
    requires Boundary(rd, lines, at) && forall j | 0 <= j < |block| :: !rd.skips(block[j]) && !rd.empties(block[j])
    requires IsDiscrepancy(Judge(rd, lines, d))
    ensures IsDiscrepancy(Judge(rd, Inserted(lines, at, block), d))
  {
    DiscrepancyExactly(rd, lines, d);
    DiscrepancyExactly(rd, Inserted(lines, at, block), d);
    hide Judge, NothingRead, Inserted;
    var i :| Accuses(rd, lines, i, d);
    AccusedAfter(rd, lines, at, block, d, i);
    ReadAfter(rd, lines, at, block);
  }
}
