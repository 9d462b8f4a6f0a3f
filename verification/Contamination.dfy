/** The digest-indexed contamination scan of `evaluation_contamination.py`. */
module Contamination {
  import opened Wrappers

  datatype Role = System | User | Assistant | ToolRole

  datatype Part = TextPart(text: string) | ImagePart(asset: nat)

  datatype ToolCall = ToolCall(id: string, name: string, arguments: string)

  datatype Tool = Tool(name: string, description: string, parameters: string)

  datatype Message = Message(
    id: nat, role: Role, parts: seq<Part>, toolCalls: seq<ToolCall>, toolCallId: Option<string>, metadata: string)

  datatype Mode = TextMode | ChatMode

  datatype Policy = AllTokens | FinalAssistant

  datatype Example = Example(tools: seq<Tool>, messages: seq<Message>, sourceRow: nat, mode: Mode, policy: Policy)

  datatype Case = Case(id: string, prompt: string)

  /** What is digested: a message without its identity and metadata. */
  datatype Entry = Entry(role: Role, parts: seq<Part>, toolCalls: seq<ToolCall>, toolCallId: Option<string>)

  datatype Input = Input(tools: seq<Tool>, entries: seq<Entry>)

  type Digest = Input -> string

  function Project(m: Message): Entry {
    Entry(m.role, m.parts, m.toolCalls, m.toolCallId)
  }

  function ProjectAll(messages: seq<Message>): (r: seq<Entry>)
    ensures |r| == |messages|
    ensures forall i | 0 <= i < |messages| :: r[i] == Project(messages[i])
  {
    if messages == [] then [] else [Project(messages[0])] + ProjectAll(messages[1..])
  }

  function AllButLast<T>(s: seq<T>): seq<T> {
    if s == [] then [] else s[..|s| - 1]
  }

  /** `input_digest` before hashing; `None` for an unsupported example. */
  function InputOf(e: Example): Option<Input> {
    if e.mode == TextMode || e.policy != FinalAssistant then None
    else Some(Input(e.tools, ProjectAll(AllButLast(e.messages))))
  }

  function TextEntry(role: Role, text: string): Entry {
    Entry(role, [TextPart(text)], [], None)
  }

  /** `case_input_digest` before hashing, as the scan calls it, without a system prompt. */
  function CaseInput(prompt: string): Input {
    Input([], [TextEntry(User, prompt)])
  }

  // ----- The report -----

  datatype Status = Clean | Overlap | Unavailable

  datatype Reason = InputMissing | UnsupportedFormat

  datatype Report = Report(
    status: Status, reason: Option<Reason>, data: seq<string>, selected: nat, checked: nat, hitCount: nat,
    ids: seq<string>)

  predicate Distinct(s: seq<string>) {
    forall i, j | 0 <= i < j < |s| :: s[i] != s[j]
  }

  const MAX_CASES := 32
  const MAX_SOURCES := 32
  const MAX_SELECTED := 16_000_000

  /** The validation of `EvaluationContamination`; a report that fails it raises instead of being returned. */
  predicate WellFormed(r: Report) {
    && |r.data| <= MAX_SOURCES && r.selected <= MAX_SELECTED
    && r.checked <= MAX_CASES && r.hitCount <= MAX_CASES && |r.ids| <= MAX_CASES
    && r.hitCount <= r.checked && Distinct(r.ids) && |r.ids| == r.hitCount
    && (r.status == Clean ==> r.hitCount == 0 && r.checked > 0 && r.selected > 0)
    && (r.status == Overlap ==> r.hitCount > 0)
  }

  function Validated(r: Report): Result<Report> {
    if WellFormed(r) then Ok(r) else Err
  }

  // ----- The scan without an index -----

  predicate Hits(digest: Digest, c: Case, e: Example) {
    InputOf(e).Some? && digest(InputOf(e).value) == digest(CaseInput(c.prompt))
  }

  predicate IsHit(digest: Digest, c: Case, examples: seq<Example>) {
    exists k | 0 <= k < |examples| :: Hits(digest, c, examples[k])
  }

  /** The ids of the cases some example hits, in fixture order. */
  function HitIds(digest: Digest, fixtures: seq<Case>, examples: seq<Example>): seq<string> {
    if fixtures == [] then []
    else
      (if IsHit(digest, fixtures[0], examples) then [fixtures[0].id] else [])
      + HitIds(digest, fixtures[1..], examples)
  }

  predicate Unsupported(examples: seq<Example>) {
    exists k | 0 <= k < |examples| :: InputOf(examples[k]).None?
  }

  /** The report a reader expects: every case compared with every example. */
  function Naive(digest: Digest, fixtures: seq<Case>, examples: seq<Example>, data: seq<string>): Report {
    if Unsupported(examples) then Report(Unavailable, Some(UnsupportedFormat), data, |examples|, 0, 0, [])
    else if examples == [] then Report(Unavailable, Some(InputMissing), data, 0, 0, 0, [])
    else
      var ids := HitIds(digest, fixtures, examples);
      Report(if ids == [] then Clean else Overlap, None, data, |examples|, |fixtures|, |ids|, ids)
  }

  // ----- The indexed scan -----

  /** The ids in `hits`, in fixture order. */
  function Ordered(fixtures: seq<Case>, hits: set<string>): (r: seq<string>)
    ensures forall id | id in r :: id in hits
  {
    if fixtures == [] then []
    else (if fixtures[0].id in hits then [fixtures[0].id] else []) + Ordered(fixtures[1..], hits)
  }

  ghost predicate HasCase(digest: Digest, fixtures: seq<Case>, n: nat, d: string, id: string)
    requires n <= |fixtures|
  {
    exists i | 0 <= i < n :: fixtures[i].id == id && digest(CaseInput(fixtures[i].prompt)) == d
  }

  function IdsAt(expected: map<string, seq<string>>, d: string): seq<string> {
    if d in expected then expected[d] else []
  }

  /** The index lists, under each digest, the ids of the first `n` cases with that digest. */
  ghost predicate Indexed(digest: Digest, fixtures: seq<Case>, n: nat, expected: map<string, seq<string>>)
    requires n <= |fixtures|
  {
    forall d, id :: id in IdsAt(expected, d) <==> HasCase(digest, fixtures, n, d, id)
  }

  /** The first `n` examples hit some case with this id. */
  ghost predicate IdHit(digest: Digest, fixtures: seq<Case>, examples: seq<Example>, n: nat, id: string)
    requires n <= |examples|
  {
    exists i, k | 0 <= i < |fixtures| && 0 <= k < n :: fixtures[i].id == id && Hits(digest, fixtures[i], examples[k])
  }

  ghost predicate Collected(digest: Digest, fixtures: seq<Case>, examples: seq<Example>, n: nat, hits: set<string>)
    requires n <= |examples|
  {
    forall id :: id in hits <==> IdHit(digest, fixtures, examples, n, id)
  }

  method BuildIndex(digest: Digest, fixtures: seq<Case>) returns (expected: map<string, seq<string>>)
    ensures Indexed(digest, fixtures, |fixtures|, expected)
  {
    expected := map[];
    for n := 0 to |fixtures|
      invariant Indexed(digest, fixtures, n, expected)
    {
      var d := digest(CaseInput(fixtures[n].prompt));
      ghost var before := expected;
      expected := expected[d := IdsAt(expected, d) + [fixtures[n].id]];
      IndexGrows(digest, fixtures, n, before, expected);
    }
  }

  lemma IndexGrows(
    digest: Digest, fixtures: seq<Case>, n: nat, before: map<string, seq<string>>, expected: map<string, seq<string>>)
    requires n < |fixtures| && Indexed(digest, fixtures, n, before)
    requires var d := digest(CaseInput(fixtures[n].prompt));
             expected == before[d := IdsAt(before, d) + [fixtures[n].id]]
    ensures Indexed(digest, fixtures, n + 1, expected)
  {
    forall d, id
      ensures id in IdsAt(expected, d) <==> HasCase(digest, fixtures, n + 1, d, id)
    {
      assert id in IdsAt(before, d) <==> HasCase(digest, fixtures, n, d, id);
    }
  }

  method CollectHits(digest: Digest, fixtures: seq<Case>, examples: seq<Example>, expected: map<string, seq<string>>)
    returns (hits: set<string>, selected: nat, unsupported: bool)
    requires Indexed(digest, fixtures, |fixtures|, expected)
    ensures Collected(digest, fixtures, examples, |examples|, hits)
    ensures selected == |examples| && unsupported == Unsupported(examples)
  {
    hits, selected, unsupported := {}, 0, false;
    for n := 0 to |examples|
      invariant Collected(digest, fixtures, examples, n, hits)
      invariant selected == n
      invariant unsupported <==> exists k | 0 <= k < n :: InputOf(examples[k]).None?
    {
      selected := selected + 1;
      var input := InputOf(examples[n]);
      ghost var before := hits;
      match input {
        case None => unsupported := true;
        case Some(v) =>
          hits := hits + (set id | id in IdsAt(expected, digest(v)));
      }
      HitsGrow(digest, fixtures, examples, n, expected, before, hits);
    }
  }

  lemma HitsGrow(
    digest: Digest, fixtures: seq<Case>, examples: seq<Example>, n: nat, expected: map<string, seq<string>>,
    before: set<string>, hits: set<string>)
    requires n < |examples| && Indexed(digest, fixtures, |fixtures|, expected)
    requires Collected(digest, fixtures, examples, n, before)
    requires InputOf(examples[n]).None? ==> hits == before
    requires InputOf(examples[n]).Some? ==>
               forall id :: id in hits <==> id in before || id in IdsAt(expected, digest(InputOf(examples[n]).value))
    ensures Collected(digest, fixtures, examples, n + 1, hits)
  {
    forall id
      ensures id in hits <==> IdHit(digest, fixtures, examples, n + 1, id)
    {
      assert id in before <==> IdHit(digest, fixtures, examples, n, id);
      if InputOf(examples[n]).Some? {
        var d := digest(InputOf(examples[n]).value);
        assert id in IdsAt(expected, d) <==> HasCase(digest, fixtures, |fixtures|, d, id);
        if HasCase(digest, fixtures, |fixtures|, d, id) {
          var i :| 0 <= i < |fixtures| && fixtures[i].id == id && digest(CaseInput(fixtures[i].prompt)) == d;
          assert Hits(digest, fixtures[i], examples[n]);
        }
      }
    }
  }

  /** `scan_inputs`; `Err` is the validation error its caller turns into an unavailable report. */
  method ScanInputs(digest: Digest, fixtures: seq<Case>, consumed: Option<seq<Example>>, data: seq<string>)
    returns (r: Result<Report>)
    ensures r == Scanned(digest, fixtures, consumed, data)
  {
    if consumed.None? {
      return Validated(Report(Unavailable, Some(InputMissing), data, 0, 0, 0, []));
    }
    var examples := consumed.value;
    var expected := BuildIndex(digest, fixtures);
    var hits, selected, unsupported := CollectHits(digest, fixtures, examples, expected);
    if unsupported || selected == 0 {
      var reason := if unsupported then UnsupportedFormat else InputMissing;
      return Validated(Report(Unavailable, Some(reason), data, selected, 0, 0, []));
    }
    var ordered := Ordered(fixtures, hits);
    var status := if hits != {} then Overlap else Clean;
    var report := Report(status, None, data, selected, |fixtures|, |ordered|, ordered);
    ReportIsNaive(digest, fixtures, examples, data, hits, report);
    return Validated(report);
  }

  /** What the scan answers, said without the index. */
  function Scanned(digest: Digest, fixtures: seq<Case>, consumed: Option<seq<Example>>, data: seq<string>)
    : Result<Report>
  {
    if consumed.None? then Validated(Report(Unavailable, Some(InputMissing), data, 0, 0, 0, []))
    else if consumed.value != [] && !Unsupported(consumed.value) && Ambiguous(digest, fixtures, consumed.value) then Err
    else Validated(Naive(digest, fixtures, consumed.value, data))
  }

  /** A case is hit whose id another case also carries. */
  predicate Ambiguous(digest: Digest, fixtures: seq<Case>, examples: seq<Example>) {
    exists i, j | 0 <= i < |fixtures| && 0 <= j < |fixtures| ::
      i != j && fixtures[i].id == fixtures[j].id && IsHit(digest, fixtures[i], examples)
  }

  lemma CollectedAt(digest: Digest, fixtures: seq<Case>, examples: seq<Example>, hits: set<string>, i: nat)
    requires Collected(digest, fixtures, examples, |examples|, hits) && i < |fixtures|
    ensures IsHit(digest, fixtures[i], examples) ==> fixtures[i].id in hits
    ensures fixtures[i].id in hits && !Ambiguous(digest, fixtures, examples) ==> IsHit(digest, fixtures[i], examples)
  {
    var id := fixtures[i].id;
    assert id in hits <==> IdHit(digest, fixtures, examples, |examples|, id);
    if IdHit(digest, fixtures, examples, |examples|, id) {
      var j, k :| 0 <= j < |fixtures| && 0 <= k < |examples| && fixtures[j].id == id
                  && Hits(digest, fixtures[j], examples[k]);
      assert IsHit(digest, fixtures[j], examples);
    }
  }

  lemma {:induction false} OrderedAgrees(digest: Digest, fixtures: seq<Case>, examples: seq<Example>, hits: set<string>)
    requires forall i | 0 <= i < |fixtures| :: fixtures[i].id in hits <==> IsHit(digest, fixtures[i], examples)
    ensures Ordered(fixtures, hits) == HitIds(digest, fixtures, examples)
  {
    if fixtures != [] {
      assert forall i | 0 <= i < |fixtures[1..]| :: fixtures[1..][i] == fixtures[i + 1];
      OrderedAgrees(digest, fixtures[1..], examples, hits);
      assert fixtures[0].id in hits <==> IsHit(digest, fixtures[0], examples);
    }
  }

  lemma {:induction false} OrderedHas(fixtures: seq<Case>, hits: set<string>, i: nat)
    requires i < |fixtures| && fixtures[i].id in hits
    ensures fixtures[i].id in Ordered(fixtures, hits)
  {
    if i > 0 {
      OrderedHas(fixtures[1..], hits, i - 1);
    }
  }

  lemma {:induction false} OrderedRepeats(fixtures: seq<Case>, hits: set<string>, i: nat, j: nat)
    requires i < j < |fixtures| && fixtures[i].id == fixtures[j].id && fixtures[i].id in hits
    ensures !Distinct(Ordered(fixtures, hits))
  {
    var rest := Ordered(fixtures[1..], hits);
    var all := Ordered(fixtures, hits);
    if i == 0 {
      OrderedHas(fixtures[1..], hits, j - 1);
      var k :| 0 <= k < |rest| && rest[k] == fixtures[0].id;
      assert all[k + 1] == all[0];
    } else {
      OrderedRepeats(fixtures[1..], hits, i - 1, j - 1);
      var a, b :| 0 <= a < b < |rest| && rest[a] == rest[b];
      var shift := |all| - |rest|;
      assert all[a + shift] == all[b + shift];
    }
  }

  lemma ReportIsNaive(
    digest: Digest, fixtures: seq<Case>, examples: seq<Example>, data: seq<string>, hits: set<string>, report: Report)
    requires examples != [] && !Unsupported(examples)
    requires Collected(digest, fixtures, examples, |examples|, hits)
    requires var ids := Ordered(fixtures, hits);
             report == Report(if hits != {} then Overlap else Clean, None, data, |examples|, |fixtures|, |ids|, ids)
    ensures Validated(report) == Scanned(digest, fixtures, Some(examples), data)
  {
    if Ambiguous(digest, fixtures, examples) {
      var i, j :| 0 <= i < |fixtures| && 0 <= j < |fixtures| && i != j && fixtures[i].id == fixtures[j].id
        && IsHit(digest, fixtures[i], examples);
      CollectedAt(digest, fixtures, examples, hits, i);
      OrderedRepeats(fixtures, hits, if i < j then i else j, if i < j then j else i);
    } else {
      forall i | 0 <= i < |fixtures|
        ensures fixtures[i].id in hits <==> IsHit(digest, fixtures[i], examples)
      {
        CollectedAt(digest, fixtures, examples, hits, i);
      }
      OrderedAgrees(digest, fixtures, examples, hits);
      HitsNonempty(digest, fixtures, examples, hits);
    }
  }

  lemma HitsNonempty(digest: Digest, fixtures: seq<Case>, examples: seq<Example>, hits: set<string>)
    requires Collected(digest, fixtures, examples, |examples|, hits)
    ensures hits != {} <==> Ordered(fixtures, hits) != []
  {
    if hits != {} {
      var id :| id in hits;
      assert IdHit(digest, fixtures, examples, |examples|, id);
      var i, k :| 0 <= i < |fixtures| && 0 <= k < |examples| && fixtures[i].id == id
                  && Hits(digest, fixtures[i], examples[k]);
      OrderedHas(fixtures, hits, i);
    }
  }

  // ----- What the report means -----

  /** An example the scan cannot compare. */
  lemma UnsupportedIff(e: Example)
    ensures InputOf(e).None? <==> e.mode == TextMode || e.policy == AllTokens
  {
  }

  /** The report, case by case. */
  lemma NaiveIs(digest: Digest, fixtures: seq<Case>, examples: seq<Example>, data: seq<string>)
    ensures var r := Naive(digest, fixtures, examples, data);
            && r.data == data && r.selected == |examples| && r.hitCount == |r.ids|
            && if exists k | 0 <= k < |examples| :: examples[k].mode == TextMode || examples[k].policy == AllTokens then
                 r.status == Unavailable && r.reason == Some(UnsupportedFormat) && r.checked == 0 && r.ids == []
               else if examples == [] then
                 r.status == Unavailable && r.reason == Some(InputMissing) && r.checked == 0 && r.ids == []
               else
                 && r.status == (if r.ids == [] then Clean else Overlap) && r.reason == None
                 && r.checked == |fixtures| && r.ids == HitIds(digest, fixtures, examples)
  {
    forall k | 0 <= k < |examples|
      ensures InputOf(examples[k]).None? <==> examples[k].mode == TextMode || examples[k].policy == AllTokens
    {
      UnsupportedIff(examples[k]);
    }
  }

  predicate Increasing(places: seq<nat>) {
    forall i, j | 0 <= i < j < |places| :: places[i] < places[j]
  }

  /** The ids at these places of the fixtures. */
  predicate Lists(fixtures: seq<Case>, places: seq<nat>, ids: seq<string>) {
    |ids| == |places| && forall i | 0 <= i < |places| :: places[i] < |fixtures| && ids[i] == fixtures[places[i]].id
  }

  lemma {:induction false} HitsFrom(digest: Digest, fixtures: seq<Case>, examples: seq<Example>, from: nat)
    returns (places: seq<nat>)
    requires from <= |fixtures|
    ensures Increasing(places) && Lists(fixtures, places, HitIds(digest, fixtures[from..], examples))
    ensures forall p: nat | p < |fixtures| :: p in places <==> p >= from && IsHit(digest, fixtures[p], examples)
    decreases |fixtures| - from
  {
    if from == |fixtures| {
      places := [];
    } else {
      var later := HitsFrom(digest, fixtures, examples, from + 1);
      assert fixtures[from..][1..] == fixtures[from + 1..] && fixtures[from..][0] == fixtures[from];
      places := later;
      if IsHit(digest, fixtures[from], examples) {
        places := [from] + later;
      } else {
        assert [] + HitIds(digest, fixtures[from + 1..], examples) == HitIds(digest, fixtures[from + 1..], examples);
      }
    }
  }

  /** The ids are those of the cases that are hit, all of them, in the order of the fixtures. */
  lemma HitIdsInOrder(digest: Digest, fixtures: seq<Case>, examples: seq<Example>) returns (places: seq<nat>)
    ensures Increasing(places) && Lists(fixtures, places, HitIds(digest, fixtures, examples))
    ensures forall p: nat | p < |fixtures| :: p in places <==> IsHit(digest, fixtures[p], examples)
  {
    places := HitsFrom(digest, fixtures, examples, 0);
    assert fixtures[0..] == fixtures;
  }

  /** A returned report is exactly the naive one, with no assumption on the case ids. */
  lemma ReturnedIsNaive(digest: Digest, fixtures: seq<Case>, examples: seq<Example>, data: seq<string>)
    ensures var r := Scanned(digest, fixtures, Some(examples), data);
            r.Ok? ==> r.value == Naive(digest, fixtures, examples, data)
  {
  }

  lemma {:induction false} HitIdsAreHit(digest: Digest, fixtures: seq<Case>, examples: seq<Example>, id: string)
    ensures |HitIds(digest, fixtures, examples)| <= |fixtures|
    ensures id in HitIds(digest, fixtures, examples) ==>
              exists i | 0 <= i < |fixtures| :: fixtures[i].id == id && IsHit(digest, fixtures[i], examples)
  {
    if fixtures != [] {
      var tail := fixtures[1..];
      HitIdsAreHit(digest, tail, examples, id);
      if id in HitIds(digest, tail, examples) {
        var i :| 0 <= i < |tail| && tail[i].id == id && IsHit(digest, tail[i], examples);
        assert fixtures[i + 1].id == id && IsHit(digest, fixtures[i + 1], examples);
      }
    }
  }

  lemma DistinctCons(id: string, rest: seq<string>)
    requires Distinct(rest) && id !in rest
    ensures Distinct([id] + rest)
  {
  }

  lemma {:induction false} HitIdsAreDistinct(digest: Digest, fixtures: seq<Case>, examples: seq<Example>)
    requires !Ambiguous(digest, fixtures, examples)
    ensures Distinct(HitIds(digest, fixtures, examples))
  {
    if fixtures != [] {
      var tail := fixtures[1..];
      var rest := HitIds(digest, tail, examples);
      TailIsUnambiguous(digest, fixtures, examples);
      HitIdsAreDistinct(digest, tail, examples);
      HeadIsNew(digest, fixtures, examples);
      DistinctCons(fixtures[0].id, rest);
      assert [] + rest == rest;
    }
  }

  lemma HeadIsNew(digest: Digest, fixtures: seq<Case>, examples: seq<Example>)
    requires fixtures != [] && !Ambiguous(digest, fixtures, examples)
    ensures fixtures[0].id !in HitIds(digest, fixtures[1..], examples)
  {
    var tail := fixtures[1..];
    HitIdsAreHit(digest, tail, examples, fixtures[0].id);
    forall i | 0 <= i < |tail| && tail[i].id == fixtures[0].id
      ensures !IsHit(digest, tail[i], examples)
    {
      assert tail[i] == fixtures[i + 1];
    }
  }

  lemma TailIsUnambiguous(digest: Digest, fixtures: seq<Case>, examples: seq<Example>)
    requires fixtures != [] && !Ambiguous(digest, fixtures, examples)
    ensures !Ambiguous(digest, fixtures[1..], examples)
  {
    var tail := fixtures[1..];
    forall i, j | 0 <= i < |tail| && 0 <= j < |tail|
      ensures !(i != j && tail[i].id == tail[j].id && IsHit(digest, tail[i], examples))
    {
      assert tail[i] == fixtures[i + 1] && tail[j] == fixtures[j + 1];
    }
  }

  /** On supported examples the scan returns a report exactly when no hit case shares its id and the sizes fit. */
  lemma ReturnsIff(digest: Digest, fixtures: seq<Case>, examples: seq<Example>, data: seq<string>)
    requires examples != [] && !Unsupported(examples)
    ensures Scanned(digest, fixtures, Some(examples), data).Ok? <==>
              && !Ambiguous(digest, fixtures, examples)
              && 0 < |fixtures| <= 32 && |examples| <= 16_000_000 && |data| <= 32
  {
    if !Ambiguous(digest, fixtures, examples) {
      HitIdsAreDistinct(digest, fixtures, examples);
      HitIdsAreHit(digest, fixtures, examples, "");
    }
  }

  /** Without input, or with an unsupported example, the scan says so, as long as the sizes fit. */
  lemma UnavailableIs(digest: Digest, fixtures: seq<Case>, consumed: Option<seq<Example>>, data: seq<string>)
    requires consumed.None? || consumed.value == [] || Unsupported(consumed.value)
    ensures var n := if consumed.Some? then |consumed.value| else 0;
            var reason := if consumed.Some? && Unsupported(consumed.value) then UnsupportedFormat else InputMissing;
            Scanned(digest, fixtures, consumed, data) ==
            if |data| <= 32 && n <= 16_000_000 then Ok(Report(Unavailable, Some(reason), data, n, 0, 0, [])) else Err
  {
  }

  /** What every validated report says of itself. */
  lemma ValidatedMeans(r: Report)
    requires Validated(r).Ok?
    ensures |r.ids| == r.hitCount <= r.checked <= 32 && r.selected <= 16_000_000 && |r.data| <= 32
    ensures forall i, j | 0 <= i < j < |r.ids| :: r.ids[i] != r.ids[j]
    ensures r.status == Clean ==> r.hitCount == 0 && r.checked >= 1 && r.selected >= 1
    ensures r.status == Overlap ==> r.hitCount >= 1
  {
  }

  /** A repeated id that is hit makes the scan refuse rather than report the wrong case. */
  lemma RepeatedIdIsRefused(digest: Digest, data: seq<string>)
    ensures var example := Example([], [Message(0, User, [TextPart("p")], [], None, "")], 1, ChatMode, FinalAssistant);
            var asked := example.(messages := example.messages + example.messages);
            Scanned(digest, [Case("a", "p"), Case("a", "q")], Some([asked]), data) == Err
  {
    var message := Message(0, User, [TextPart("p")], [], None, "");
    var asked := Example([], [message, message], 1, ChatMode, FinalAssistant);
    var fixtures := [Case("a", "p"), Case("a", "q")];
    assert [message] + [message] == [message, message];
    assert AllButLast([message, message]) == [message];
    assert ProjectAll([message]) == [TextEntry(User, "p")];
    assert Hits(digest, fixtures[0], [asked][0]);
    assert IsHit(digest, fixtures[0], [asked]);
    assert fixtures[0].id == fixtures[1].id;
    assert Ambiguous(digest, fixtures, [asked]);
  }

  lemma {:induction false} SameHits(digest: Digest, fixtures: seq<Case>, a: seq<Example>, b: seq<Example>)
    requires forall c :: IsHit(digest, c, a) <==> IsHit(digest, c, b)
    ensures HitIds(digest, fixtures, a) == HitIds(digest, fixtures, b)
  {
    if fixtures != [] {
      SameHits(digest, fixtures[1..], a, b);
    }
  }

  lemma SameMembers(a: seq<Example>, b: seq<Example>, k: nat) returns (l: nat)
    requires multiset(a) == multiset(b) && k < |a|
    ensures l < |b| && b[l] == a[k]
  {
    assert a[k] in multiset(a);
    assert a[k] in b;
    l :| 0 <= l < |b| && b[l] == a[k];
  }

  lemma HitTransfers(digest: Digest, c: Case, a: seq<Example>, b: seq<Example>)
    requires multiset(a) == multiset(b)
    ensures IsHit(digest, c, a) ==> IsHit(digest, c, b)
    ensures Unsupported(a) ==> Unsupported(b)
  {
    if IsHit(digest, c, a) {
      var k :| 0 <= k < |a| && Hits(digest, c, a[k]);
      var l := SameMembers(a, b, k);
    }
    if Unsupported(a) {
      var k :| 0 <= k < |a| && InputOf(a[k]).None?;
      var l := SameMembers(a, b, k);
    }
  }

  /** The order in which examples were consumed does not matter. */
  lemma ScanIgnoresOrder(digest: Digest, fixtures: seq<Case>, a: seq<Example>, b: seq<Example>, data: seq<string>)
    requires multiset(a) == multiset(b)
    ensures Scanned(digest, fixtures, Some(a), data) == Scanned(digest, fixtures, Some(b), data)
  {
    assert |a| == |multiset(a)| == |multiset(b)| == |b|;
    forall c
      ensures IsHit(digest, c, a) <==> IsHit(digest, c, b)
      ensures Unsupported(a) <==> Unsupported(b)
    {
      HitTransfers(digest, c, a, b);
      HitTransfers(digest, c, b, a);
    }
    HitTransfers(digest, Case("", ""), a, b);
    HitTransfers(digest, Case("", ""), b, a);
    SameHits(digest, fixtures, a, b);
    assert Ambiguous(digest, fixtures, a) <==> Ambiguous(digest, fixtures, b);
  }

  /** The digest tells this case's input from this example's. */
  predicate Separates(digest: Digest, c: Case, e: Example) {
    InputOf(e).Some? && digest(InputOf(e).value) == digest(CaseInput(c.prompt)) ==>
      InputOf(e).value == CaseInput(c.prompt)
  }

  /** Unless the digest collides, an example hits a case exactly when it is a chat example that offers no tools
      and asks the case's prompt, and nothing else, before its target. */
  lemma HitMeans(digest: Digest, c: Case, e: Example)
    requires Separates(digest, c, e) && |e.messages| > 0
    ensures Hits(digest, c, e) <==>
              && e.mode == ChatMode && e.policy == FinalAssistant && e.tools == []
              && |e.messages| == 2 && Project(e.messages[0]) == TextEntry(User, c.prompt)
  {
    var context := AllButLast(e.messages);
    if |context| == 1 {
      assert ProjectAll(context) == [Project(context[0])];
    }
  }

  /** The supervised target, message identities, metadata and provenance never decide a hit. */
  lemma HitIgnoresTarget(digest: Digest, c: Case, e: Example, f: Example)
    requires e.tools == f.tools && e.mode == f.mode && e.policy == f.policy
    requires |e.messages| == |f.messages|
    requires forall i | 0 <= i < |e.messages| - 1 :: Project(e.messages[i]) == Project(f.messages[i])
    ensures Hits(digest, c, e) <==> Hits(digest, c, f)
  {
    assert ProjectAll(AllButLast(e.messages)) == ProjectAll(AllButLast(f.messages));
  }
}
