/** The mandate table: guarded UPDATE statements, one atomic step each. */
module Mandates {
  import opened Wrappers
  import opened IsoTime

  datatype Status = Issued | Authorized | Consumed | Revoked | Expired

  /** What a mandate grants; no statement ever rewrites it. */
  datatype Grant = Grant(owner: string, agent: string, maxSpendCents: nat, domains: seq<string>)

  datatype Row = Row(grant: Grant, expiresAt: string, status: Status, nonce: Option<string>, resolvedAt: Option<string>)

  type Table = map<string, Row>

  /** A clock reading taken by `_now()`. */
  type Stamp = t: Utc | Valid(t) witness Utc(1, 1, 1, 0, 0, 0, 0)

  predicate CanTransition(current: Status, target: Status) {
    match current
    case Issued => target == Authorized || target == Revoked || target == Expired
    case Authorized => target == Consumed || target == Revoked || target == Expired
    case _ => false
  }

  predicate Live(r: Row) { r.status == Issued || r.status == Authorized }

  /** One UPDATE statement with the values bound to it. The sweep may be given
      any text as its time; the others bind readings of the clock. */
  datatype Call =
    | Authorize(id: string, nonce: string, now: Stamp)
    | Consume(id: string, nonce: string, resolved: Stamp, now: Stamp)
    | Revoke(id: string, resolved: Stamp)
    | Sweep(at: string)

  /** The WHERE clause. */
  predicate Selects(id: string, r: Row, c: Call) {
    match c
    case Authorize(i, nonce, now) => id == i && r.status == Issued && r.nonce == Some(nonce) &&
        Less(Iso(now), r.expiresAt)
    case Consume(i, nonce, _, now) => id == i && r.status == Authorized && r.nonce == Some(nonce) &&
        Less(Iso(now), r.expiresAt)
    case Revoke(i, _) => id == i && Live(r)
    case Sweep(at) => Live(r) && !Less(at, r.expiresAt)
  }

  /** The SET clause. */
  function Assigned(r: Row, c: Call): Row {
    match c
    case Authorize(_, _, _) => r.(status := Authorized)
    case Consume(_, _, resolved, _) => r.(status := Consumed, nonce := None, resolvedAt := Some(Iso(resolved)))
    case Revoke(_, resolved) => r.(status := Revoked, resolvedAt := Some(Iso(resolved)))
    case Sweep(at) => r.(status := Expired, resolvedAt := Some(at))
  }

  function Hits(t: Table, c: Call): set<string> {
    set id | id in t && Selects(id, t[id], c)
  }

  function Apply(t: Table, c: Call): Table {
    map id | id in t :: if Selects(id, t[id], c) then Assigned(t[id], c) else t[id]
  }

  /** The guard on the expiry text is a guard on instants. */
  lemma GuardMeansBefore(id: string, r: Row, c: Call, expires: Stamp)
    requires (c.Authorize? || c.Consume?) && Selects(id, r, c) && r.expiresAt == Iso(expires)
    ensures Instant(c.now) < Instant(expires)
  {
    IsoOrder(c.now, expires);
  }

  lemma HitsOne(t: Table, c: Call)
    requires !c.Sweep?
    ensures Hits(t, c) == if c.id in t && Selects(c.id, t[c.id], c) then {c.id} else {}
    ensures |Hits(t, c)| <= 1
  {
  }

  class MandateStore {
    var rows: Table

    constructor ()
      ensures rows == map[]
    {
      rows := map[];
    }

    /** A second row with the same primary key is refused. */
    method Insert(id: string, grant: Grant, nonce: string, expires: Stamp) returns (ok: bool)
      modifies this
      ensures ok == (id !in old(rows))
      ensures rows == if ok then old(rows)[id := Row(grant, Iso(expires), Issued, Some(nonce), None)] else old(rows)
    {
      ok := id !in rows;
      if ok {
        rows := rows[id := Row(grant, Iso(expires), Issued, Some(nonce), None)];
      }
    }

    method GetMandate(id: string) returns (r: Option<Row>)
      ensures r == if id in rows then Some(rows[id]) else None
    {
      if id in rows { r := Some(rows[id]); } else { r := None; }
    }

    method AuthorizeMandate(id: string, nonce: string, now: Stamp) returns (ok: bool)
      modifies this
      ensures rows == Apply(old(rows), Call.Authorize(id, nonce, now))
      ensures ok <==> |Hits(old(rows), Call.Authorize(id, nonce, now))| == 1
    {
      HitsOne(rows, Call.Authorize(id, nonce, now));
      ok := id in rows && rows[id].status == Issued && rows[id].nonce == Some(nonce) &&
          Less(Iso(now), rows[id].expiresAt);
      if ok {
        rows := rows[id := rows[id].(status := Authorized)];
      }
    }

    /** Reads the clock twice: once for resolved_at, once for the guard. */
    method ConsumeMandate(id: string, nonce: string, resolved: Stamp, now: Stamp) returns (ok: bool)
      modifies this
      ensures rows == Apply(old(rows), Call.Consume(id, nonce, resolved, now))
      ensures ok <==> |Hits(old(rows), Call.Consume(id, nonce, resolved, now))| == 1
    {
      HitsOne(rows, Call.Consume(id, nonce, resolved, now));
      ok := id in rows && rows[id].status == Authorized && rows[id].nonce == Some(nonce) &&
          Less(Iso(now), rows[id].expiresAt);
      if ok {
        rows := rows[id := rows[id].(status := Consumed, nonce := None, resolvedAt := Some(Iso(resolved)))];
      }
    }

    method RevokeMandate(id: string, resolved: Stamp) returns (ok: bool)
      modifies this
      ensures rows == Apply(old(rows), Call.Revoke(id, resolved))
      ensures ok <==> |Hits(old(rows), Call.Revoke(id, resolved))| == 1
    {
      HitsOne(rows, Call.Revoke(id, resolved));
      ok := id in rows && (rows[id].status == Issued || rows[id].status == Authorized);
      if ok {
        rows := rows[id := rows[id].(status := Revoked, resolvedAt := Some(Iso(resolved)))];
      }
    }

    method ExpireDue(at: string) returns (count: nat)
      modifies this
      ensures rows == Apply(old(rows), Call.Sweep(at))
      ensures count == |Hits(old(rows), Call.Sweep(at))|
    {
      var due := set id | id in rows && (rows[id].status == Issued || rows[id].status == Authorized)
                          && !Less(at, rows[id].expiresAt);
      assert due == Hits(rows, Call.Sweep(at));
      rows := map id | id in rows ::
        if id in due then rows[id].(status := Expired, resolvedAt := Some(at)) else rows[id];
      count := |due|;
    }
  }

  // ----- What one statement keeps

  /** Well-formed rows: the nonce is gone exactly when consumed, the resolution
      time is there exactly when the status is terminal. */
  predicate RowOk(r: Row) {
    (r.nonce == None <==> r.status == Consumed) && (r.resolvedAt.Some? <==> !Live(r))
  }

  /** Every statement, on every table: rows are neither added nor dropped, the
      grant and the expiry stay, a status moves only along an allowed
      transition, and a terminal row is frozen. */
  lemma StepKeepsRows(t: Table, c: Call, id: string)
    requires id in t && RowOk(t[id])
    ensures Apply(t, c).Keys == t.Keys
    ensures var r, r' := t[id], Apply(t, c)[id];
            && RowOk(r') && r'.grant == r.grant && r'.expiresAt == r.expiresAt
            && (r'.nonce == r.nonce || r'.status == Consumed)
            && (if id in Hits(t, c) then CanTransition(r.status, r'.status) else r' == r)
            && (!Live(r) ==> r' == r)
  {
  }

  /** At any reading of the clock a live row is either usable (its nonce
      authorizes or consumes it) or sweepable, and never both. */
  lemma UsableOrSweepable(t: Table, id: string, now: Stamp, resolved: Stamp, expires: Stamp)
    requires id in t && RowOk(t[id]) && Live(t[id]) && t[id].expiresAt == Iso(expires)
    ensures var nonce := t[id].nonce.value;
            var use := if t[id].status == Issued then Call.Authorize(id, nonce, now)
                       else Call.Consume(id, nonce, resolved, now);
            && (id in Hits(t, use) <==> Instant(now) < Instant(expires))
            && (id in Hits(t, Call.Sweep(Iso(now))) <==> Instant(expires) <= Instant(now))
  {
    IsoOrder(now, expires);
  }
}
