// The refresh-token table: what every statement on it keeps, and what it never undoes.
module TokenFamilies {
  import opened Wrappers
  import opened AuthTables

  /** A rotated token and the row that replaced it. */
  predicate Succeeds(older: Token, newer: Token) {
    newer.family == older.family && newer.user == older.user && newer.workspace == older.workspace
    && newer.remember == older.remember && older.expiresAt <= newer.expiresAt
  }

  predicate SameOwner(a: Token, b: Token) {
    a.user == b.user && a.workspace == b.workspace && a.remember == b.remember
  }

  /** A row carries a family that exists, a plausible expiry, and a successor only once it is revoked. */
  predicate RowOk(tokens: seq<Token>, families: nat, now: Time, i: nat)
    requires i < |tokens|
  {
    var t := tokens[i];
    && t.family < families && t.expiresAt <= now + Ttl(t.remember)
    && (t.revokedAt.Some? ==> t.revokedAt.value <= now)
    && (t.replacedBy.Some? ==>
          && i < t.replacedBy.value < |tokens| && t.revokedAt.Some?
          && Succeeds(t, tokens[t.replacedBy.value]))
  }

  /** Of two rows of one family, the older one has been replaced no later than the newer one was issued. */
  predicate PairOk(tokens: seq<Token>, i: nat, k: nat)
    requires i < k < |tokens|
  {
    tokens[i].family == tokens[k].family ==>
      SameOwner(tokens[i], tokens[k]) && tokens[i].replacedBy.Some? && tokens[i].replacedBy.value <= k
  }

  /** Every family is one chain of replacements, linked in the order its rows were issued. */
  ghost predicate Chained(tokens: seq<Token>, families: nat, now: Time) {
    && (forall i: nat | i < |tokens| :: RowOk(tokens, families, now, i))
    && (forall i: nat, k: nat | i < k < |tokens| :: PairOk(tokens, i, k))
    && (forall f | 0 <= f < families :: HasFamily(tokens, f))
  }

  ghost predicate HasFamily(tokens: seq<Token>, family: nat) {
    exists i :: 0 <= i < |tokens| && tokens[i].family == family
  }

  /** Every token of the family is revoked. */
  ghost predicate Dead(tokens: seq<Token>, family: nat) {
    forall i | 0 <= i < |tokens| && tokens[i].family == family :: tokens[i].revokedAt.Some?
  }

  /** What no statement ever changes in a row: its identity, and a revocation or replacement once made. */
  predicate RowLater(t: Token, t': Token) {
    && t'.user == t.user && t'.workspace == t.workspace && t'.family == t.family
    && t'.remember == t.remember && t'.expiresAt == t.expiresAt
    && (t.revokedAt.Some? ==> t' == t)
    && (t.replacedBy.Some? ==> t'.replacedBy == t.replacedBy)
  }

  ghost predicate TokensLater(tokens: seq<Token>, families: nat, tokens': seq<Token>, families': nat) {
    && |tokens| <= |tokens'| && families <= families'
    && (forall i | 0 <= i < |tokens| :: RowLater(tokens[i], tokens'[i]))
    && (forall f | 0 <= f < families && Dead(tokens, f) :: Dead(tokens', f))
  }

  lemma LaterIsTransitive(a: seq<Token>, fa: nat, b: seq<Token>, fb: nat, c: seq<Token>, fc: nat)
    requires TokensLater(a, fa, b, fb) && TokensLater(b, fb, c, fc)
    ensures TokensLater(a, fa, c, fc)
  {
    forall i | 0 <= i < |a| ensures RowLater(a[i], c[i]) {
      assert RowLater(a[i], b[i]) && RowLater(b[i], c[i]);
    }
  }

  /** Time passing keeps the table well formed. */
  lemma TickKeepsChains(tokens: seq<Token>, families: nat, now: Time, later: Time)
    requires Chained(tokens, families, now) && now <= later
    ensures Chained(tokens, families, later)
  {
    forall i: nat | i < |tokens| ensures RowOk(tokens, families, later, i) {
      assert RowOk(tokens, families, now, i);
    }
  }

  lemma RevokeKeepsChains(tokens: seq<Token>, families: nat, which: Selector, now: Time)
    requires Chained(tokens, families, now)
    ensures Chained(Revoke(tokens, which, now), families, now)
    ensures TokensLater(tokens, families, Revoke(tokens, which, now), families)
  {
    var after := Revoke(tokens, which, now);
    forall i: nat | i < |after| ensures RowOk(after, families, now, i) {
      assert RowOk(tokens, families, now, i);
    }
    forall i: nat, k: nat | i < k < |after| ensures PairOk(after, i, k) {
      assert PairOk(tokens, i, k);
    }
    forall f | 0 <= f < families ensures HasFamily(after, f) {
      assert HasFamily(tokens, f);
      var i :| 0 <= i < |tokens| && tokens[i].family == f;
      assert after[i].family == f;
    }
    forall f | 0 <= f < families && Dead(tokens, f) ensures Dead(after, f) {
      forall i | 0 <= i < |after| && after[i].family == f ensures after[i].revokedAt.Some? {
        assert tokens[i].family == f;
      }
    }
  }

  /** A statement that selects a whole family, or a membership that owns one, leaves that family dead. */
  lemma RevokeKillsFamily(tokens: seq<Token>, families: nat, which: Selector, now: Time, row: nat)
    requires Chained(tokens, families, now)
    requires row < |tokens| && !which.OfRow? && Selects(which, row, tokens[row])
    ensures Dead(Revoke(tokens, which, now), tokens[row].family)
  {
    var after := Revoke(tokens, which, now);
    forall i | 0 <= i < |after| && after[i].family == tokens[row].family ensures after[i].revokedAt.Some? {
      assert tokens[i].family == tokens[row].family;
      if i < row {
        assert PairOk(tokens, i, row);
      } else if row < i {
        assert PairOk(tokens, row, i);
      }
      assert Selects(which, i, tokens[i]);
    }
  }

  lemma OpenKeepsChains(tokens: seq<Token>, families: nat, user: nat, workspace: nat, remember: bool, now: Time)
    requires Chained(tokens, families, now)
    ensures var after := tokens + [NewToken(user, workspace, families, remember, now)];
            Chained(after, families + 1, now) && TokensLater(tokens, families, after, families + 1)
  {
    var after, total := tokens + [NewToken(user, workspace, families, remember, now)], families + 1;
    assert after[|tokens|].family == families;
    forall i: nat | i < |after| ensures RowOk(after, total, now, i) {
      if i < |tokens| {
        assert RowOk(tokens, families, now, i);
      }
    }
    forall i: nat, k: nat | i < k < |after| ensures PairOk(after, i, k) {
      assert RowOk(tokens, families, now, i);
      if k < |tokens| {
        assert PairOk(tokens, i, k);
      }
    }
    forall f | 0 <= f < families + 1 ensures HasFamily(after, f) {
      if f < families {
        assert HasFamily(tokens, f);
        var i :| 0 <= i < |tokens| && tokens[i].family == f;
        assert after[i].family == f;
      }
    }
  }

  /** The table after presenting an active token: it is replaced by a new row of its family. */
  function Rotated(tokens: seq<Token>, row: nat, now: Time): seq<Token>
    requires row < |tokens|
  {
    var t := tokens[row];
    Replace(tokens + [NewToken(t.user, t.workspace, t.family, t.remember, now)], row, |tokens|, now)
  }

  lemma RotateKeepsChains(tokens: seq<Token>, families: nat, row: nat, now: Time)
    requires Chained(tokens, families, now)
    requires row < |tokens| && ClassifiedActive(tokens[row])
    ensures Chained(Rotated(tokens, row, now), families, now)
    ensures TokensLater(tokens, families, Rotated(tokens, row, now), families)
  {
    var after := Rotated(tokens, row, now);
    var last := |tokens|;
    assert after[last].family == tokens[row].family;
    forall i: nat | i < |after| ensures RowOk(after, families, now, i) {
      assert RowOk(tokens, families, now, row);
      if i < last {
        assert RowOk(tokens, families, now, i);
      }
    }
    forall i: nat, k: nat | i < k < |after| ensures PairOk(after, i, k) {
      if k < last {
        assert PairOk(tokens, i, k);
      } else if i < row {
        assert PairOk(tokens, i, row);
      } else if row < i {
        assert PairOk(tokens, row, i);
      }
    }
    forall f | 0 <= f < families ensures HasFamily(after, f) {
      assert HasFamily(tokens, f);
      var i :| 0 <= i < |tokens| && tokens[i].family == f;
      assert after[i].family == f;
    }
    forall f | 0 <= f < families && Dead(tokens, f) ensures Dead(after, f) {
      assert f != tokens[row].family;
    }
  }

  predicate ClassifiedActive(t: Token) {
    t.revokedAt.None? && t.replacedBy.None?
  }

  // ---------- the chain, spelled out ----------

  lemma {:induction false} FamilyRowsAreTheFamily(tokens: seq<Token>, family: nat)
    ensures var rows := FamilyRows(tokens, family);
            && (forall k | 0 <= k < |rows| :: rows[k] < |tokens| && tokens[rows[k]].family == family)
            && (forall j, k | 0 <= j < k < |rows| :: rows[j] < rows[k])
            && (forall i: nat | i < |tokens| && tokens[i].family == family :: i in rows)
  {
    if tokens != [] {
      var before := FamilyRows(tokens[..|tokens| - 1], family);
      FamilyRowsAreTheFamily(tokens[..|tokens| - 1], family);
      forall i: nat | i < |tokens| && tokens[i].family == family ensures i in FamilyRows(tokens, family) {
        assert i < |tokens| - 1 ==> tokens[..|tokens| - 1][i].family == family;
        assert i < |tokens| - 1 ==> i in before;
      }
    }
  }

  /** In issue order, each row of a family is replaced by the next one, and only the newest has no successor. */
  lemma FamilyIsOneChain(tokens: seq<Token>, families: nat, now: Time, family: nat)
    requires Chained(tokens, families, now) && family < families
    ensures var rows := FamilyRows(tokens, family);
            && |rows| > 0
            && (forall k | 0 <= k < |rows| - 1 ::
                  && rows[k] < |tokens|
                  && tokens[rows[k]].replacedBy == Some(rows[k + 1])
                  && tokens[rows[k]].revokedAt.Some?)
            && rows[|rows| - 1] < |tokens|
            && tokens[rows[|rows| - 1]].replacedBy.None?
  {
    var rows := FamilyRows(tokens, family);
    FamilyRowsAreTheFamily(tokens, family);
    assert HasFamily(tokens, family);
    var last := rows[|rows| - 1];
    assert RowOk(tokens, families, now, last);
    forall k | 0 <= k < |rows| - 1
      ensures tokens[rows[k]].replacedBy == Some(rows[k + 1]) && tokens[rows[k]].revokedAt.Some?
    {
      NextInFamily(tokens, families, now, family, k);
    }
  }

  lemma NextInFamily(tokens: seq<Token>, families: nat, now: Time, family: nat, k: nat)
    requires Chained(tokens, families, now) && k + 1 < |FamilyRows(tokens, family)|
    ensures var rows := FamilyRows(tokens, family);
            rows[k] < |tokens| && tokens[rows[k]].replacedBy == Some(rows[k + 1]) && tokens[rows[k]].revokedAt.Some?
  {
    var rows := FamilyRows(tokens, family);
    FamilyRowsAreTheFamily(tokens, family);
    assert PairOk(tokens, rows[k], rows[k + 1]);
    assert RowOk(tokens, families, now, rows[k]);
    var next := tokens[rows[k]].replacedBy.value;
    assert next in rows;
    var j :| 0 <= j < |rows| && rows[j] == next;
    assert k < j;
  }
}
