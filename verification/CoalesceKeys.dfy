/** The keys under which previews supersede one another. */
module CoalesceKeys {
  import opened Events
  import opened LatestWins
  import opened QueueRuns

  const SEPARATOR := '|'

  function Digit(d: nat): char
    requires d < 10
  {
    "0123456789"[d]
  }

  /** A counter in decimal. */
  function Decimal(n: nat): (s: string)
    ensures s != []
  {
    if n < 10 then [Digit(n)] else Decimal(n / 10) + [Digit(n % 10)]
  }

  /** The stream inside an author's event: the first of these ids that is present. */
  function SubjectId(f: Fields): string {
    if f.strokeId != "" then f.strokeId
    else if f.blockId != "" then f.blockId
    else f.pageId
  }

  /** `n` is the value the delta counter takes when this key is made. */
  function CoalesceKey(connectionId: string, m: Message, n: nat): string {
    var key := connectionId + [SEPARATOR] + (m.event + [SEPARATOR] + SubjectId(m.fields));
    if m.event == "ink.points" then key + [SEPARATOR] + Decimal(n) else key
  }

  predicate Plain(s: string) {
    SEPARATOR !in s
  }

  lemma {:induction false} DecimalIsPlain(n: nat)
    ensures Plain(Decimal(n))
  {
    if n >= 10 {
      DecimalIsPlain(n / 10);
    }
  }

  lemma {:induction false} DecimalIsInjective(m: nat, n: nat)
    requires Decimal(m) == Decimal(n)
    ensures m == n
  {
    var s, t := Decimal(m), Decimal(n);
    assert s[|s| - 1] == Digit(m % 10) && t[|t| - 1] == Digit(n % 10);
    DigitIsInjective(m % 10, n % 10);
    if m >= 10 && n >= 10 {
      assert s[..|s| - 1] == Decimal(m / 10) && t[..|t| - 1] == Decimal(n / 10);
      DecimalIsInjective(m / 10, n / 10);
    }
    assert m >= 10 ==> |s| >= 2;
    assert n >= 10 ==> |t| >= 2;
  }

  lemma DigitIsInjective(a: nat, b: nat)
    requires a < 10 && b < 10 && Digit(a) == Digit(b)
    ensures a == b
  {
  }

  lemma SplitAtFirst(a: string, x: string, b: string, y: string)
    requires Plain(a) && Plain(b) && a + [SEPARATOR] + x == b + [SEPARATOR] + y
    ensures a == b && x == y
  {
    var s := a + [SEPARATOR] + x;
    assert s[|a|] == SEPARATOR && s[|b|] == SEPARATOR;
    assert |a| == |b|;
    assert a == s[..|a|] == b;
    assert x == s[|a| + 1..] == y;
  }

  lemma SplitAtLast(x: string, a: string, y: string, b: string)
    requires Plain(a) && Plain(b) && x + [SEPARATOR] + a == y + [SEPARATOR] + b
    ensures x == y && a == b
  {
    var s := x + [SEPARATOR] + a;
    assert s[|x|] == SEPARATOR && s[|y|] == SEPARATOR;
    assert |x| == |y|;
    assert x == s[..|x|] == y;
    assert a == s[|x| + 1..] == b;
  }

  lemma EphemeralEventsArePlain(event: string)
    requires event in EPHEMERAL_EVENTS
    ensures Plain(event)
  {
  }

  /**
    Two previews share a key exactly when connection, event and subject agree and the
    event is not an ink delta; subjects may be any strings.
   */
  lemma SameStream(c: string, m: Message, i: nat, d: string, n: Message, j: nat)
    requires Plain(c) && Plain(d)
    requires m.event in EPHEMERAL_EVENTS && n.event in EPHEMERAL_EVENTS
    requires m.event == "ink.points" == n.event ==> i != j
    ensures CoalesceKey(c, m, i) == CoalesceKey(d, n, j)
       <==> c == d && m.event == n.event && SubjectId(m.fields) == SubjectId(n.fields) && m.event != "ink.points"
  {
    if CoalesceKey(c, m, i) == CoalesceKey(d, n, j) {
      EphemeralEventsArePlain(m.event);
      EphemeralEventsArePlain(n.event);
      hide SubjectId, Decimal;
      var s, t := SubjectId(m.fields), SubjectId(n.fields);
      var s' := if m.event == "ink.points" then s + [SEPARATOR] + Decimal(i) else s;
      var t' := if n.event == "ink.points" then t + [SEPARATOR] + Decimal(j) else t;
      assert CoalesceKey(c, m, i) == c + [SEPARATOR] + (m.event + [SEPARATOR] + s');
      assert CoalesceKey(d, n, j) == d + [SEPARATOR] + (n.event + [SEPARATOR] + t');
      SplitAtFirst(c, m.event + [SEPARATOR] + s', d, n.event + [SEPARATOR] + t');
      SplitAtFirst(m.event, s', n.event, t');
      if m.event == "ink.points" {
        DecimalIsPlain(i);
        DecimalIsPlain(j);
        SplitAtLast(s, Decimal(i), t, Decimal(j));
        DecimalIsInjective(i, j);
      }
    }
  }

  /**
    What supersedes what, by the payload's own fields: strokes are told apart by stroke id and
    blocks by block id, whatever page they are on; cursors only by their page.
   */
  lemma StreamsByField(c: string, m: Message, i: nat, n: Message, j: nat)
    requires Plain(c) && m.event in EPHEMERAL_EVENTS && m.event == n.event && m.event != "ink.points"
    ensures var f, g := m.fields, n.fields;
            var same := CoalesceKey(c, m, i) == CoalesceKey(c, n, j);
            && (f.strokeId != "" && g.strokeId != "" ==> (same <==> f.strokeId == g.strokeId))
            && (f.strokeId == "" && g.strokeId == "" && f.blockId != "" && g.blockId != "" ==>
                  (same <==> f.blockId == g.blockId))
            && (f.strokeId == "" && g.strokeId == "" && f.blockId == "" && g.blockId == "" ==>
                  (same <==> f.pageId == g.pageId))
  {
    SameStream(c, m, i, c, n, j);
    hide CoalesceKey;
  }

  /** The pushes of a run were keyed by the relay: plain senders, a new counter value for each delta. */
  ghost predicate KeyedByRelay(accepted: Slots<Message>, senders: seq<string>, counters: seq<nat>) {
    && |senders| == |counters| == |accepted|
    && (forall i | 0 <= i < |accepted| ::
          && Plain(senders[i]) && accepted[i].item.event in EPHEMERAL_EVENTS
          && accepted[i].key == CoalesceKey(senders[i], accepted[i].item, counters[i]))
    && (forall i, j | 0 <= i < j < |accepted| && accepted[i].item.event == "ink.points" == accepted[j].item.event ::
          counters[i] != counters[j])
  }

  /**
    Ink deltas are never coalesced: in every run of a queue fed by the relay, a delta is
    lost only by overflow shedding, and the survivors leave in the order they were pushed.
   */
  lemma InkDeltasSurvive(ops: seq<Op>, limit: nat, senders: seq<string>, counters: seq<nat>)
    requires KeyedByRelay(Run(ops, limit).accepted, senders, counters)
    ensures var l := Run(ops, limit);
            && DeltasInOrder(l)
            && forall o: nat | o < |l.accepted| && IsDelta(l, o) :: o in Line(l) || o in l.shed
  {
    hide Run, CoalesceKey;
    var l := Run(ops, limit);
    forall i, j | 0 <= i < |l.accepted| && 0 <= j < |l.accepted| && i != j && IsDelta(l, i)
      ensures l.accepted[i].key != l.accepted[j].key
    {
      SameStream(senders[i], l.accepted[i].item, counters[i], senders[j], l.accepted[j].item, counters[j]);
    }
    DeltasAreOnlyShed(ops, limit);
  }
}
