// The event log, flattened into the writes of its handlers.

module Log {
  import opened Tables
  import opened Events
  import opened Cells
  import opened Replay

  /** The writes of one event, in order. */
  function Writes(e: Event): (ws: seq<Write>)
    ensures |ws| == |Handler(e)|
    ensures forall i :: 0 <= i < |ws| ==> ws[i] == Write(Handler(e)[i], e)
  {
    seq(|Handler(e)|, i requires 0 <= i < |Handler(e)| => Write(Handler(e)[i], e))
  }

  function Flatten(log: seq<Event>): (ws: seq<Write>)
  {
    if log == [] then [] else Flatten(log[..|log| - 1]) + Writes(log[|log| - 1])
  }

  /** The number of writes of the first k events. */
  function Offset(log: seq<Event>, k: nat): (n: nat)
    requires k <= |log|
  {
    |Flatten(log[..k])|
  }

  /** The version rows that an event announces. */
  function Announced(e: Payload): (keys: set<VersionKey>)
  {
    match e
    case DocumentCreated(_, doc, _, _, _, version, _, _, _) => {VersionKey(doc, version)}
    case DocumentVersionAdded(doc, version, _, _, _) => {VersionKey(doc, version)}
    case _ => {}
  }

  /** Objects are created before they are used, and no version is announced twice. */
  ghost predicate WellFormedLog(log: seq<Event>)
  {
    forall i, j :: 0 <= i < j < |log| ==>
      Creates(log[j].payload) !! LooksUp(log[i].payload) && Announced(log[i].payload) !! Announced(log[j].payload)
  }

  lemma WritesFit(e: Event)
    ensures forall i :: 0 <= i < |Writes(e)| ==> Fits(Writes(e)[i])
    ensures Laid(Writes(e))
  {
  }

  lemma WritesAnnounce(w: Write)
    ensures VersionKeys(w) <= Announced(w.event.payload)
  {
  }

  lemma WritesDistinct(e: Event)
    ensures DistinctVersions(Writes(e)) && CreatedBeforeUse(Writes(e))
  {
    CreatesNotLookedUp(e.payload);
  }

  lemma {:induction false} FlattenEvents(log: seq<Event>, q: nat) returns (k: nat)
    requires q < |Flatten(log)|
    ensures k < |log| && Flatten(log)[q].event == log[k]
  {
    var n := |log| - 1;
    if q < |Flatten(log[..n])| { k := FlattenEvents(log[..n], q); } else { k := n; }
  }

  lemma JoinWellFormed(us: seq<Write>, vs: seq<Write>)
    requires WellFormed(us) && WellFormed(vs)
    requires forall i, j :: 0 <= i < |us| && 0 <= j < |vs| ==>
      Creates(vs[j].event.payload) !! LooksUp(us[i].event.payload) && VersionKeys(us[i]) !! VersionKeys(vs[j])
    ensures WellFormed(us + vs)
  {
    JoinLaid(us, vs);
  }

  lemma JoinLaid(us: seq<Write>, vs: seq<Write>)
    requires Laid(us) && Laid(vs)
    ensures Laid(us + vs)
  {
    var ws := us + vs;
    forall q | 0 <= q < |ws| && ws[q].kind == InsertDocument
      ensures q + 1 < |ws| && ws[q + 1] == Write(InsertFirstVersion, ws[q].event)
    {
      if q < |us| { assert ws[q + 1] == us[q + 1]; } else { assert ws[q + 1] == vs[q - |us| + 1]; }
    }
    forall q | 0 <= q < |ws| && ws[q].kind == InsertFirstVersion
      ensures q > 0 && ws[q - 1] == Write(InsertDocument, ws[q].event)
    {
      if q < |us| { assert ws[q - 1] == us[q - 1]; } else { assert ws[q - 1] == vs[q - |us| - 1]; }
    }
  }

  lemma {:induction false} FlattenWellFormed(log: seq<Event>)
    requires WellFormedLog(log)
    ensures WellFormed(Flatten(log))
  {
    if log != [] {
      var n := |log| - 1;
      var us, vs := Flatten(log[..n]), Writes(log[n]);
      FlattenWellFormed(log[..n]);
      WritesFit(log[n]);
      WritesDistinct(log[n]);
      forall i, j | 0 <= i < |us| && 0 <= j < |vs|
        ensures Creates(vs[j].event.payload) !! LooksUp(us[i].event.payload) && VersionKeys(us[i]) !! VersionKeys(vs[j])
      {
        var k := FlattenEvents(log[..n], i);
        WritesAnnounce(us[i]);
        WritesAnnounce(vs[j]);
      }
      JoinWellFormed(us, vs);
    }
  }

  lemma FlattenSnoc(log: seq<Event>, e: Event)
    ensures Flatten(log + [e]) == Flatten(log) + Writes(e)
  {
    assert (log + [e])[..|log|] == log;
  }

  lemma {:induction false} FlattenConcat(a: seq<Event>, b: seq<Event>)
    ensures Flatten(a + b) == Flatten(a) + Flatten(b)
    decreases |b|
  {
    if b == [] {
      assert a + b == a;
    } else {
      var b', e := b[..|b| - 1], b[|b| - 1];
      assert b == b' + [e] && a + b == (a + b') + [e];
      FlattenConcat(a, b');
      FlattenSnoc(a + b', e);
      FlattenSnoc(b', e);
      Associative(Flatten(a), Flatten(b'), Writes(e));
    }
  }

  lemma Associative<T>(a: seq<T>, b: seq<T>, c: seq<T>)
    ensures (a + b) + c == a + (b + c)
  {
  }

  // --- Where the writes of an event are in the flattened log. ---

  lemma Segment(log: seq<Event>, k: nat)
    requires k < |log|
    ensures Offset(log, k + 1) == Offset(log, k) + |Handler(log[k])| <= |Flatten(log)|
    ensures Flatten(log)[Offset(log, k)..Offset(log, k + 1)] == Writes(log[k])
  {
    assert log[..k + 1][..k] == log[..k] && log == log[..k + 1] + log[k + 1..];
    FlattenConcat(log[..k + 1], log[k + 1..]);
  }

  lemma OffsetInside(log: seq<Event>, k: nat)
    requires k <= |log|
    ensures Offset(log, k) <= |Flatten(log)|
  {
    assert log == log[..k] + log[k..];
    FlattenConcat(log[..k], log[k..]);
  }

  lemma {:induction false} OffsetsGrow(log: seq<Event>, j: nat, k: nat)
    requires j <= k <= |log|
    ensures Offset(log, j) <= Offset(log, k) <= |Flatten(log)|
  {
    if j < k {
      OffsetsGrow(log, j, k - 1);
      Segment(log, k - 1);
    } else {
      OffsetInside(log, k);
    }
  }

  lemma WholeOffset(log: seq<Event>)
    ensures Offset(log, |log|) == |Flatten(log)| && Offset(log, 0) == 0
  {
    assert log[..|log|] == log && log[..0] == [];
  }

  /** The consecutive writes of part are at `from` in the log. */
  ghost predicate IsAt(ws: seq<Write>, from: nat, part: seq<Write>)
  {
    from + |part| <= |ws| && forall i :: 0 <= i < |part| ==> ws[from + i] == part[i]
  }

  lemma SliceIsAt(ws: seq<Write>, from: nat, part: seq<Write>, n: nat)
    requires from + |part| <= |ws| && ws[from..from + |part|] == part && n <= |part|
    ensures IsAt(ws, from, part[..n])
  {
    forall i | 0 <= i < n ensures ws[from + i] == part[i]
    {
      assert ws[from + i] == ws[from..from + |part|][i];
    }
  }

  /** The first write of event k, and the events in front of it. */
  lemma FirstWriteAt(log: seq<Event>, k: nat)
    requires k < |log| && |Handler(log[k])| > 0
    ensures Offset(log, k) < |Flatten(log)| && Flatten(log)[Offset(log, k)] == Writes(log[k])[0]
  {
    Segment(log, k);
    SliceIsAt(Flatten(log), Offset(log, k), Writes(log[k]), |Writes(log[k])|);
    assert Writes(log[k])[..|Writes(log[k])|][0] == Writes(log[k])[0];
  }

  lemma OffsetOfPrefix(log: seq<Event>, n: nat, k: nat)
    requires k <= n <= |log|
    ensures Offset(log[..n], k) == Offset(log, k)
  {
    assert log[..n][..k] == log[..k];
  }

  /** The event that a write belongs to. */
  lemma {:induction false} Locate(log: seq<Event>, q: nat) returns (k: nat)
    requires q < |Flatten(log)|
    ensures k < |log| && Offset(log, k) <= q < Offset(log, k + 1)
  {
    var n := |log| - 1;
    WholeOffset(log);
    if q < Offset(log, n) {
      k := Locate(log[..n], q);
      OffsetOfPrefix(log, n, k);
      OffsetOfPrefix(log, n, k + 1);
    } else {
      k := n;
    }
  }

  lemma WriteAt(log: seq<Event>, k: nat, q: nat)
    requires k < |log| && Offset(log, k) <= q < Offset(log, k + 1)
    ensures q < |Flatten(log)| && q - Offset(log, k) < |Handler(log[k])|
    ensures Flatten(log)[q] == Write(Handler(log[k])[q - Offset(log, k)], log[k])
  {
    var ws, from, upto, part := Flatten(log), Offset(log, k), Offset(log, k + 1), Writes(log[k]);
    Segment(log, k);
    OffsetInside(log, k + 1);
    assert upto == from + |part| && upto <= |ws|;
    SliceAt(ws, from, part, q);
  }

  lemma SliceAt<T>(s: seq<T>, from: nat, part: seq<T>, q: nat)
    requires from + |part| <= |s| && s[from..from + |part|] == part && from <= q < from + |part|
    ensures s[q] == part[q - from]
  {
    assert s[q] == s[from..from + |part|][q - from];
  }

  /** The kinds that only ever come first in their handler. */
  predicate LeadsHandler(kind: Kind)
  {
    kind.InsertPool? || kind.InsertDataroom? || kind.UpsertMemberRow?
  }

  lemma LeadingKind(e: Event, w: Write, i: nat)
    requires i < |Handler(e)| && w == Write(Handler(e)[i], e) && LeadsHandler(w.kind)
    ensures i == 0
  {
  }

  lemma LeadAt(log: seq<Event>, q: nat) returns (k: nat)
    requires q < |Flatten(log)| && LeadsHandler(Flatten(log)[q].kind)
    ensures k < |log| && q == Offset(log, k) && |Handler(log[k])| > 0
    ensures Flatten(log)[q] == Write(Handler(log[k])[0], log[k])
  {
    var w := Flatten(log)[q];
    k := Locate(log, q);
    var from := Offset(log, k);
    WriteAt(log, k, q);
    LeadingKind(log[k], w, q - from);
  }

  lemma OffsetsGrowStrictly(log: seq<Event>, i: nat, j: nat)
    requires i < j <= |log| && |Handler(log[i])| > 0
    ensures Offset(log, i) < Offset(log, j)
  {
    Segment(log, i);
    OffsetsGrow(log, i + 1, j);
  }

  lemma OffsetsOrder(log: seq<Event>, i: nat, j: nat)
    requires i <= |log| && j <= |log| && Offset(log, i) < Offset(log, j)
    ensures i < j
  {
    if j <= i { OffsetsGrow(log, j, i); }
  }

  // --- Applying several writes. ---

  ghost function ApplyAll(s: Store, ws: seq<Write>): (r: Store)
  {
    if ws == [] then s else Apply(ApplyAll(s, ws[..|ws| - 1]), ws[|ws| - 1])
  }

  lemma ApplySnoc(s: Store, ws: seq<Write>, w: Write)
    ensures ApplyAll(s, ws + [w]) == Apply(ApplyAll(s, ws), w)
  {
    assert (ws + [w])[..|ws|] == ws;
  }

  lemma {:induction false} CleanSplit(us: seq<Write>, vs: seq<Write>)
    ensures Clean(us + vs, |us + vs|) == ApplyAll(Clean(us + vs, |us|), vs)
    ensures Clean(us + vs, |us|) == Clean(us, |us|)
    decreases |vs|
  {
    CleanPrefix(us + vs, us, |us|);
    if vs == [] {
      assert us + vs == us;
    } else {
      var n := |vs| - 1;
      CleanSplit(us, vs[..n]);
      assert (us + vs)[..|us + vs| - 1] == us + vs[..n];
      CleanPrefix(us + vs, us + vs[..n], |us| + n);
    }
  }

  lemma {:induction false} CleanPrefix(ws: seq<Write>, us: seq<Write>, k: nat)
    requires k <= |us| <= |ws| && us <= ws
    ensures Clean(ws, k) == Clean(us, k)
  {
    if k > 0 { CleanPrefix(ws, us, k - 1); }
  }
}
