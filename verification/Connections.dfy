/** What the connection table means, for any log of network records. */
module Connections {
  import opened Records
  import opened Folds
  import opened Tables

  // ---- any log

  /** One past the last CLOSE of this connection; 0 if it never closed. */
  ghost function SinceClose(log: seq<NetEvent>, key: ConnectionKey): (b: nat)
    ensures b <= |log|
    ensures b > 0 ==> ConnOf(log[b - 1]) == key && IsClosing(log[b - 1])
    ensures forall i | b <= i < |log| && ConnOf(log[i]) == key :: !IsClosing(log[i])
  {
    if |log| == 0 then 0
    else if ConnOf(log[|log| - 1]) == key && IsClosing(log[|log| - 1]) then |log|
    else SinceClose(log[..|log| - 1], key)
  }

  /** Position of the connection's last record, or -1. */
  ghost function LastSeen(log: seq<NetEvent>, key: ConnectionKey): (p: int)
    ensures -1 <= p < |log|
    ensures p >= 0 ==> ConnOf(log[p]) == key
    ensures forall i | p < i < |log| :: ConnOf(log[i]) != key
  {
    if |log| == 0 then -1
    else if ConnOf(log[|log| - 1]) == key then |log| - 1
    else LastSeen(log[..|log| - 1], key)
  }

  ghost function RetransmitsSince(log: seq<NetEvent>, key: ConnectionKey, from: nat): nat {
    if |log| <= from then 0
    else
      var n := |log| - 1;
      RetransmitsSince(log[..n], key, from) + if ConnOf(log[n]) == key && log[n].kind == Retransmit then 1 else 0
  }

  lemma RetransmitsFromEnd(log: seq<NetEvent>, key: ConnectionKey, from: nat)
    requires |log| <= from
    ensures RetransmitsSince(log, key, from) == 0
  {
  }

  /** Something happened on the connection after its last CLOSE. */
  ghost predicate Active(log: seq<NetEvent>, key: ConnectionKey) {
    exists i: nat :: SinceClose(log, key) <= i < |log| && ConnOf(log[i]) == key
  }

  lemma ActiveIffLastSeen(log: seq<NetEvent>, key: ConnectionKey)
    ensures Active(log, key) <==> LastSeen(log, key) >= SinceClose(log, key)
  {
    var p := LastSeen(log, key);
    if p >= SinceClose(log, key) {
      assert ConnOf(log[p]) == key;
    }
  }

  ghost function RowFromLog(log: seq<NetEvent>, key: ConnectionKey): ConnectionStats
    requires LastSeen(log, key) >= 0
  {
    ConnectionStats(log[LastSeen(log, key)].state, RetransmitsSince(log, key, SinceClose(log, key)))
  }

  /** A connection is listed iff something happened on it since its last CLOSE; its state is
      the latest one reported and its counter the retransmits since that CLOSE. */
  lemma {:induction false} ConnTableMeaning(log: seq<NetEvent>, key: ConnectionKey)
    ensures var t := Fold(ConnStep, NO_CONNS, log);
      && (key in t <==> Active(log, key))
      && (key in t ==> LastSeen(log, key) >= 0 && t[key] == RowFromLog(log, key))
      && (key !in t ==> RetransmitsSince(log, key, SinceClose(log, key)) == 0)
  {
    ActiveIffLastSeen(log, key);
    if |log| > 0 {
      var before, e := log[..|log| - 1], log[|log| - 1];
      ConnTableMeaning(before, key);
      ActiveIffLastSeen(before, key);
      if ConnOf(e) == key && IsClosing(e) {
        RetransmitsFromEnd(log, key, |log|);
      }
    }
  }

  ghost function OwnRecords(log: seq<NetEvent>, key: ConnectionKey): seq<NetEvent> {
    if |log| == 0 then []
    else
      OwnRecords(log[..|log| - 1], key) + if ConnOf(log[|log| - 1]) == key then [log[|log| - 1]] else []
  }

  /** A row depends on the connection's own records only. */
  lemma {:induction false} RowsAreIndependent(log: seq<NetEvent>, key: ConnectionKey)
    ensures var t, own := Fold(ConnStep, NO_CONNS, log), Fold(ConnStep, NO_CONNS, OwnRecords(log, key));
      && (key in t <==> key in own)
      && (key in t ==> t[key] == own[key])
  {
    if |log| > 0 {
      var before, e := log[..|log| - 1], log[|log| - 1];
      RowsAreIndependent(before, key);
      if ConnOf(e) == key {
        FoldPush(ConnStep, NO_CONNS, OwnRecords(before, key), e);
      } else {
        assert OwnRecords(log, key) == OwnRecords(before, key);
      }
    }
  }
}
