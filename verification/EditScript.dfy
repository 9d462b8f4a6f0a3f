/**
  Line edit scripts and their meaning, independent of any patch text.
  Positions count source lines from zero.
  */
module EditScript {

  datatype Op = Keep(text: string) | Delete(text: string) | Insert(text: string)

  datatype Edit = Edit(start: nat, ops: seq<Op>)

  /** The source lines an edit consumes. */
  function Old(ops: seq<Op>): seq<string> {
    if ops == [] then [] else (if ops[0].Insert? then [] else [ops[0].text]) + Old(ops[1..])
  }

  /** The lines an edit leaves in their place. */
  function New(ops: seq<Op>): seq<string> {
    if ops == [] then [] else (if ops[0].Delete? then [] else [ops[0].text]) + New(ops[1..])
  }

  /** First source line after an edit. */
  function End(e: Edit): nat {
    e.start + |Old(e.ops)|
  }

  /** The kept and deleted lines are the source lines from `cursor` on. */
  predicate Consumes(source: seq<string>, cursor: nat, ops: seq<Op>)
    ensures Consumes(source, cursor, ops) ==> cursor + |Old(ops)| <= |source|
    decreases ops
  {
    if ops == [] then cursor <= |source|
    else if ops[0].Insert? then Consumes(source, cursor, ops[1..])
    else cursor < |source| && source[cursor] == ops[0].text && Consumes(source, cursor + 1, ops[1..])
  }

  /** The edits lie after `cursor`, in order, without overlap, and name the lines really there. */
  predicate Placed(source: seq<string>, script: seq<Edit>, cursor: nat) {
    if script == [] then cursor <= |source| else
    && cursor <= script[0].start
    && Consumes(source, script[0].start, script[0].ops)
    && Placed(source, script[1..], End(script[0]))
  }

  lemma {:induction false} PlacedInBounds(source: seq<string>, script: seq<Edit>, cursor: nat)
    requires Placed(source, script, cursor)
    ensures cursor <= |source|
  {
    if script != [] {
      PlacedInBounds(source, script[1..], End(script[0]));
    }
  }

  /** The text from source line `cursor` on, rewritten. */
  function Denote(source: seq<string>, script: seq<Edit>, cursor: nat): seq<string>
    requires Placed(source, script, cursor)
  {
    if script == [] then source[cursor..] else
    source[cursor..script[0].start] + New(script[0].ops) + Denote(source, script[1..], End(script[0]))
  }

  function Growth(e: Edit): int {
    |New(e.ops)| - |Old(e.ops)|
  }

  /** Net growth in lines of the first `k` edits. */
  function Drift(script: seq<Edit>, k: nat): int
    requires k <= |script|
  {
    if k == 0 then 0 else Growth(script[0]) + Drift(script[1..], k - 1)
  }

  // ----- A reference meaning stated line by line -----

  /** The untouched source lines before edit `k` (after the last edit when `k == |script|`). */
  predicate InGap(source: seq<string>, script: seq<Edit>, cursor: nat, k: nat, i: nat)
    requires k <= |script|
  {
    && (if k == 0 then cursor else End(script[k - 1])) <= i
    && i < (if k == |script| then |source| else script[k].start)
    && i < |source|
  }

  /** Where source line `line` lands once the first `k` edits are applied. */
  function Place(script: seq<Edit>, k: nat, cursor: nat, line: int): int
    requires k <= |script|
  {
    line - cursor + Drift(script, k)
  }

  predicate At(t: seq<string>, position: int, line: string) {
    0 <= position < |t| && t[position] == line
  }

  predicate HoldsAt(t: seq<string>, position: int, lines: seq<string>) {
    0 <= position <= position + |lines| <= |t| && t[position..position + |lines|] == lines
  }

  /**
    `t` is `source[cursor..]` with every line outside the edits kept, shifted by the growth of the
    edits before it, and every edit's new lines at its own shifted place.
    */
  ghost predicate Rewrites(source: seq<string>, script: seq<Edit>, cursor: nat, t: seq<string>) {
    && |t| == |source| - cursor + Drift(script, |script|)
    && (forall k: nat, i: nat | k <= |script| && InGap(source, script, cursor, k, i) ::
          At(t, Place(script, k, cursor, i), source[i]))
    && (forall k: nat | k < |script| ::
          HoldsAt(t, Place(script, k, cursor, script[k].start), New(script[k].ops)))
  }

  /** Lines the rewritten text holds up to the end of the first edit. */
  function Head(script: seq<Edit>, cursor: nat): int
    requires script != []
  {
    script[0].start - cursor + |New(script[0].ops)|
  }

  lemma PlaceInTail(script: seq<Edit>, k: nat, cursor: nat, line: int)
    requires 0 < k <= |script|
    ensures Place(script, k, cursor, line) ==
            Head(script, cursor) + Place(script[1..], k - 1, End(script[0]), line)
  {
  }

  lemma GapOfTail(source: seq<string>, script: seq<Edit>, cursor: nat, k: nat, i: nat)
    requires script != [] && 0 < k <= |script|
    ensures InGap(source, script, cursor, k, i) ==
            InGap(source, script[1..], End(script[0]), k - 1, i)
  {
  }

  lemma {:induction false} DenoteLength(source: seq<string>, script: seq<Edit>, cursor: nat)
    requires Placed(source, script, cursor)
    ensures |Denote(source, script, cursor)| == |source| - cursor + Drift(script, |script|)
  {
    if script != [] {
      DenoteLength(source, script[1..], End(script[0]));
    }
  }

  /** `Denote` past its first edit, and the first edit itself. */
  lemma DenoteTail(source: seq<string>, script: seq<Edit>, cursor: nat)
    requires script != [] && Placed(source, script, cursor)
    ensures 0 <= Head(script, cursor) <= |Denote(source, script, cursor)|
    ensures Denote(source, script, cursor)[Head(script, cursor)..] == Denote(source, script[1..], End(script[0]))
    ensures HoldsAt(Denote(source, script, cursor), script[0].start - cursor, New(script[0].ops))
  {
  }

  lemma AtTail(t: seq<string>, shift: nat, p: int, line: string)
    requires shift <= |t| && p >= 0
    ensures At(t[shift..], p, line) == At(t, shift + p, line)
  {
  }

  lemma HoldsAtTail(t: seq<string>, shift: nat, p: int, lines: seq<string>)
    requires shift <= |t| && p >= 0
    ensures HoldsAt(t[shift..], p, lines) == HoldsAt(t, shift + p, lines)
  {
    if p + |lines| <= |t| - shift {
      assert t[shift..][p..p + |lines|] == t[shift + p..shift + p + |lines|];
    }
  }

  lemma AtInTail(source: seq<string>, script: seq<Edit>, cursor: nat, p: nat, line: string)
    requires script != [] && Placed(source, script, cursor)
    requires At(Denote(source, script[1..], End(script[0])), p, line)
    ensures Head(script, cursor) >= 0 && At(Denote(source, script, cursor), Head(script, cursor) + p, line)
  {
    DenoteTail(source, script, cursor);
    AtTail(Denote(source, script, cursor), Head(script, cursor), p, line);
  }

  lemma HoldsInTail(source: seq<string>, script: seq<Edit>, cursor: nat, p: nat, lines: seq<string>)
    requires script != [] && Placed(source, script, cursor)
    requires HoldsAt(Denote(source, script[1..], End(script[0])), p, lines)
    ensures Head(script, cursor) >= 0 && HoldsAt(Denote(source, script, cursor), Head(script, cursor) + p, lines)
  {
    DenoteTail(source, script, cursor);
    HoldsAtTail(Denote(source, script, cursor), Head(script, cursor), p, lines);
  }

  lemma FirstGap(source: seq<string>, script: seq<Edit>, cursor: nat, i: nat)
    requires Placed(source, script, cursor) && InGap(source, script, cursor, 0, i)
    ensures Place(script, 0, cursor, i) == i - cursor >= 0
    ensures At(Denote(source, script, cursor), i - cursor, source[i])
  {
  }

  /** Conservation: every line outside the edits survives, shifted by the growth before it. */
  lemma {:induction false} DenoteKeeps(source: seq<string>, script: seq<Edit>, cursor: nat, k: nat, i: nat)
    requires Placed(source, script, cursor) && k <= |script| && InGap(source, script, cursor, k, i)
    ensures Place(script, k, cursor, i) >= 0
    ensures At(Denote(source, script, cursor), Place(script, k, cursor, i), source[i])
  {
    if k == 0 {
      FirstGap(source, script, cursor, i);
    } else {
      GapOfTail(source, script, cursor, k, i);
      DenoteKeeps(source, script[1..], End(script[0]), k - 1, i);
      AtInTail(source, script, cursor, Place(script[1..], k - 1, End(script[0]), i), source[i]);
      PlaceInTail(script, k, cursor, i);
    }
  }

  /** Every edit's new lines stand at its own shifted place. */
  lemma {:induction false} DenoteHolds(source: seq<string>, script: seq<Edit>, cursor: nat, k: nat)
    requires Placed(source, script, cursor) && k < |script|
    ensures Place(script, k, cursor, script[k].start) >= 0
    ensures HoldsAt(Denote(source, script, cursor), Place(script, k, cursor, script[k].start), New(script[k].ops))
  {
    if k == 0 {
      DenoteTail(source, script, cursor);
    } else {
      assert script[1..][k - 1] == script[k];
      DenoteHolds(source, script[1..], End(script[0]), k - 1);
      HoldsInTail(source, script, cursor, Place(script[1..], k - 1, End(script[0]), script[k].start),
                  New(script[k].ops));
      PlaceInTail(script, k, cursor, script[k].start);
    }
  }

  /** The recursive meaning satisfies the line-by-line one. */
  lemma DenoteRewrites(source: seq<string>, script: seq<Edit>, cursor: nat)
    requires Placed(source, script, cursor)
    ensures Rewrites(source, script, cursor, Denote(source, script, cursor))
  {
    DenoteLength(source, script, cursor);
    forall k: nat, i: nat | k <= |script| && InGap(source, script, cursor, k, i) {
      DenoteKeeps(source, script, cursor, k, i);
    }
    forall k: nat | k < |script| {
      DenoteHolds(source, script, cursor, k);
    }
  }

  /** Every line of the rewritten text is a kept line or a line of one edit. */
  lemma {:induction false} CoveredLine(source: seq<string>, script: seq<Edit>, cursor: nat, j: nat)
      returns (k: nat, i: nat, inEdit: bool)
    requires Placed(source, script, cursor) && j < |source| - cursor + Drift(script, |script|)
    ensures inEdit ==> k < |script| && i < |New(script[k].ops)|
    ensures inEdit ==> j == Place(script, k, cursor, script[k].start) + i
    ensures !inEdit ==> k <= |script| && InGap(source, script, cursor, k, i)
    ensures !inEdit ==> j == Place(script, k, cursor, i)
  {
    PlacedInBounds(source, script, cursor);
    if script == [] || j < script[0].start - cursor {
      k, i, inEdit := 0, cursor + j, false;
    } else if j < Head(script, cursor) {
      k, i, inEdit := 0, j - (script[0].start - cursor), true;
    } else {
      k, i, inEdit := CoveredLine(source, script[1..], End(script[0]), j - Head(script, cursor));
      k := k + 1;
      PlaceInTail(script, k, cursor, if inEdit then script[k].start else i);
      GapOfTail(source, script, cursor, k, i);
    }
  }

  lemma HoldsAtAgree(t: seq<string>, d: seq<string>, p: int, lines: seq<string>, i: nat)
    requires HoldsAt(t, p, lines) && HoldsAt(d, p, lines) && i < |lines|
    ensures t[p + i] == d[p + i]
  {
    assert t[p..p + |lines|][i] == d[p..p + |lines|][i];
  }

  lemma RewritesAt(source: seq<string>, script: seq<Edit>, cursor: nat, t: seq<string>, k: nat, i: nat)
    requires Rewrites(source, script, cursor, t)
    requires k <= |script| && InGap(source, script, cursor, k, i)
    ensures At(t, Place(script, k, cursor, i), source[i])
  {
  }

  lemma RewritesHold(source: seq<string>, script: seq<Edit>, cursor: nat, t: seq<string>, k: nat)
    requires Rewrites(source, script, cursor, t) && k < |script|
    ensures HoldsAt(t, Place(script, k, cursor, script[k].start), New(script[k].ops))
  {
  }

  /** Two line-by-line rewritings agree on every line. */
  lemma RewritesAgree(source: seq<string>, script: seq<Edit>, cursor: nat, t: seq<string>, d: seq<string>, j: nat)
    requires Placed(source, script, cursor) && j < |t| == |d|
    requires Rewrites(source, script, cursor, t) && Rewrites(source, script, cursor, d)
    ensures t[j] == d[j]
  {
    assert j < |source| - cursor + Drift(script, |script|);
    var k, i, inEdit := CoveredLine(source, script, cursor, j);
    if inEdit {
      RewritesHold(source, script, cursor, t, k);
      RewritesHold(source, script, cursor, d, k);
      HoldsAtAgree(t, d, Place(script, k, cursor, script[k].start), New(script[k].ops), i);
    } else {
      RewritesAt(source, script, cursor, t, k, i);
      RewritesAt(source, script, cursor, d, k, i);
    }
  }

  /** The line-by-line meaning fixes the text: it is the recursive meaning and nothing else. */
  lemma DenoteIsOnlyRewrite(source: seq<string>, script: seq<Edit>, cursor: nat, t: seq<string>)
    requires Placed(source, script, cursor)
    ensures Rewrites(source, script, cursor, t) <==> t == Denote(source, script, cursor)
  {
    var d := Denote(source, script, cursor);
    DenoteRewrites(source, script, cursor);
    if Rewrites(source, script, cursor, t) {
      forall j: nat | j < |t|
        ensures t[j] == d[j]
      {
        RewritesAgree(source, script, cursor, t, d, j);
      }
    }
  }
}
