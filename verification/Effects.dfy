/**
 What the ingestion makes of the catalogue, said of the tables alone: what a row holds in the end, whatever
 the order of the store calls that put it there.
 */
module Effects {
  import opened Catalog

  // ---------------------------------------------------------------------------------------------
  // Torrents
  // ---------------------------------------------------------------------------------------------

  predicate Mentioned(ts: seq<Torrent>, id: string) {
    exists i | 0 <= i < |ts| :: ts[i].id == id
  }

  /**
   Under each id the last event of that id, with the author the row had; the first event's author, if there was
   no row. Other ids are as before.
   */
  ghost predicate LastWins(ts: seq<Torrent>, before: map<string, Torrent>, after: map<string, Torrent>) {
    && RowsKept(ts, before, after)
    && (forall i | 0 <= i < |ts| && (forall j | i < j < |ts| :: ts[j].id != ts[i].id) ::
          ts[i].id in after && after[ts[i].id] == ts[i].(pubkey := after[ts[i].id].pubkey))
    && (forall i | 0 <= i < |ts| && ts[i].id !in before && (forall j | 0 <= j < i :: ts[j].id != ts[i].id) ::
          ts[i].id in after && after[ts[i].id].pubkey == ts[i].pubkey)
  }

  /** The ids of before and of the events, each row with the author it had; a row without an event is as it was. */
  ghost predicate RowsKept(ts: seq<Torrent>, before: map<string, Torrent>, after: map<string, Torrent>) {
    && (forall id :: id in after <==> id in before || Mentioned(ts, id))
    && (forall id | id in before && !Mentioned(ts, id) :: after[id] == before[id])
    && (forall id | id in before :: after[id].pubkey == before[id].pubkey)
  }

  function PutOne(rows: map<string, Torrent>, t: Torrent): map<string, Torrent> {
    rows[t.id := if t.id in rows then t.(pubkey := rows[t.id].pubkey) else t]
  }

  lemma MentionedSnoc(ts: seq<Torrent>, t: Torrent, id: string)
    ensures Mentioned(ts + [t], id) <==> Mentioned(ts, id) || t.id == id
  {
    if Mentioned(ts, id) {
      var i :| 0 <= i < |ts| && ts[i].id == id;
      assert (ts + [t])[i].id == id;
    }
    assert (ts + [t])[|ts|] == t;
  }

  /** One more event written. */
  lemma LastWinsSnoc(ts: seq<Torrent>, t: Torrent, before: map<string, Torrent>, mid: map<string, Torrent>, after: map<string, Torrent>)
    requires LastWins(ts, before, mid) && after == PutOne(mid, t)
    ensures LastWins(ts + [t], before, after)
  {
    RowsKeptSnoc(ts, t, before, mid, after);
    LastStands(ts, t, before, mid, after);
    FirstAuthor(ts, t, before, mid, after);
  }

  lemma RowsKeptSnoc(ts: seq<Torrent>, t: Torrent, before: map<string, Torrent>, mid: map<string, Torrent>, after: map<string, Torrent>)
    requires RowsKept(ts, before, mid) && after == PutOne(mid, t)
    ensures RowsKept(ts + [t], before, after)
  {
    forall id
      ensures Mentioned(ts + [t], id) <==> Mentioned(ts, id) || t.id == id
    {
      MentionedSnoc(ts, t, id);
    }
  }

  lemma LastStands(ts: seq<Torrent>, t: Torrent, before: map<string, Torrent>, mid: map<string, Torrent>, after: map<string, Torrent>)
    requires LastWins(ts, before, mid) && after == PutOne(mid, t)
    ensures var all := ts + [t];
            forall i | 0 <= i < |all| && (forall j | i < j < |all| :: all[j].id != all[i].id) ::
              all[i].id in after && after[all[i].id] == all[i].(pubkey := after[all[i].id].pubkey)
  {
    var all := ts + [t];
    forall i | 0 <= i < |ts| && (forall j | i < j < |all| :: all[j].id != all[i].id)
      ensures all[i].id in after && after[all[i].id] == all[i].(pubkey := after[all[i].id].pubkey)
    {
      assert all[|ts|] == t;
      forall j | i < j < |ts|
        ensures ts[j].id != ts[i].id
      {
        assert all[j] == ts[j];
      }
    }
  }

  lemma FirstAuthor(ts: seq<Torrent>, t: Torrent, before: map<string, Torrent>, mid: map<string, Torrent>, after: map<string, Torrent>)
    requires LastWins(ts, before, mid) && after == PutOne(mid, t)
    ensures var all := ts + [t];
            forall i | 0 <= i < |all| && all[i].id !in before && (forall j | 0 <= j < i :: all[j].id != all[i].id) ::
              all[i].id in after && after[all[i].id].pubkey == all[i].pubkey
  {
    var all := ts + [t];
    forall i | 0 <= i < |all| && all[i].id !in before && (forall j | 0 <= j < i :: all[j].id != all[i].id)
      ensures all[i].id in after && after[all[i].id].pubkey == all[i].pubkey
    {
      if i < |ts| {
        forall j | 0 <= j < i
          ensures ts[j].id != ts[i].id
        {
          assert all[j] == ts[j];
        }
      } else {
        forall j | 0 <= j < |ts|
          ensures ts[j].id != t.id
        {
          assert all[j] == ts[j];
        }
        assert !Mentioned(ts, t.id);
      }
    }
  }

  function PutEach(rows: map<string, Torrent>, ts: seq<Torrent>): map<string, Torrent> {
    if ts == [] then rows else PutOne(PutEach(rows, ts[..|ts| - 1]), ts[|ts| - 1])
  }

  lemma PutEachOne(rows: map<string, Torrent>, t: Torrent)
    ensures PutEach(rows, [t]) == PutOne(rows, t)
  {
    assert [t][..0] == [];
  }

  lemma {:induction false} PutEachMore(rows: map<string, Torrent>, ts: seq<Torrent>, more: seq<Torrent>)
    ensures PutEach(rows, ts + more) == PutEach(PutEach(rows, ts), more)
  {
    if more == [] {
      assert ts + more == ts;
    } else {
      assert (ts + more)[..|ts + more| - 1] == ts + more[..|more| - 1];
      PutEachMore(rows, ts, more[..|more| - 1]);
    }
  }

  lemma {:induction false} EachLastWins(rows: map<string, Torrent>, ts: seq<Torrent>)
    ensures LastWins(ts, rows, PutEach(rows, ts))
  {
    if ts != [] {
      var init, t := ts[..|ts| - 1], ts[|ts| - 1];
      EachLastWins(rows, init);
      LastWinsSnoc(init, t, rows, PutEach(rows, init), PutEach(rows, ts));
      assert ts == init + [t];
    }
  }

  lemma {:induction false} LastMention(ts: seq<Torrent>, id: string) returns (i: nat)
    requires Mentioned(ts, id)
    ensures i < |ts| && ts[i].id == id && forall j | i < j < |ts| :: ts[j].id != ts[i].id
  {
    i := |ts| - 1;
    if ts[i].id != id {
      MentionedSnoc(ts[..i], ts[i], id);
      assert ts == ts[..i] + [ts[i]];
      i := LastMention(ts[..i], id);
    }
  }

  lemma {:induction false} FirstMention(ts: seq<Torrent>, id: string) returns (i: nat)
    requires Mentioned(ts, id)
    ensures i < |ts| && ts[i].id == id && forall j | 0 <= j < i :: ts[j].id != ts[i].id
  {
    var n := |ts| - 1;
    i := n;
    MentionedSnoc(ts[..n], ts[n], id);
    assert ts == ts[..n] + [ts[n]];
    if Mentioned(ts[..n], id) {
      i := FirstMention(ts[..n], id);
    }
  }

  /** Nothing is left open: there is one such table. */
  lemma LastWinsIsExact(ts: seq<Torrent>, before: map<string, Torrent>, after: map<string, Torrent>, other: map<string, Torrent>)
    requires LastWins(ts, before, after) && LastWins(ts, before, other)
    ensures after == other
  {
    forall id | id in after
      ensures id in other && after[id] == other[id]
    {
      if Mentioned(ts, id) {
        var last := LastMention(ts, id);
        var first := FirstMention(ts, id);
        assert ts[last].id == id && ts[first].id == id;
      }
    }
  }

  // ---------------------------------------------------------------------------------------------
  // Cursors
  // ---------------------------------------------------------------------------------------------

  /** The same account with its cursor at the latest of the old one and these dates. */
  predicate Reaches(before: Account, after: Account, dates: set<int>) {
    && after == before.(cursor := after.cursor)
    && (after.cursor == before.cursor || after.cursor in dates)
    && after.cursor >= before.cursor && forall d | d in dates :: after.cursor >= d
  }

  /** Each account has reached its own dates; no account comes or goes. */
  ghost predicate AllReach(before: map<string, Account>, after: map<string, Account>, dates: string -> set<int>) {
    before.Keys == after.Keys && forall a | a in before :: Reaches(before[a], after[a], dates(a))
  }

  // ---------------------------------------------------------------------------------------------
  // Profiles
  // ---------------------------------------------------------------------------------------------

  /** The newest of these profiles, the first of equals. */
  predicate FirstNewest(ps: seq<Profile>, k: int) {
    && 0 <= k < |ps|
    && (forall j | 0 <= j < k :: ps[j].updatedAt < ps[k].updatedAt)
    && (forall j | k <= j < |ps| :: ps[j].updatedAt <= ps[k].updatedAt)
  }

  /** Everything as before except the profile, unless the stored one is strictly newer. */
  predicate Replaces(p: Profile, before: map<string, Profile>, after: map<string, Profile>) {
    && after.Keys == before.Keys + {p.pubkey}
    && (forall a | a in before && a != p.pubkey :: after[a] == before[a])
    && (if p.pubkey in before && before[p.pubkey].updatedAt > p.updatedAt
        then after[p.pubkey] == before[p.pubkey] else after[p.pubkey] == p)
  }

  ghost predicate NewestKept(ps: seq<Profile>, before: map<string, Profile>, after: map<string, Profile>) {
    if ps == [] then after == before else exists k :: FirstNewest(ps, k) && Replaces(ps[k], before, after)
  }

  /** None of these profiles of the author is newer, and a later one is older. */
  predicate LastNewest(ps: seq<Profile>, k: int) {
    && 0 <= k < |ps|
    && (forall j | 0 <= j < k && ps[j].pubkey == ps[k].pubkey :: ps[j].updatedAt <= ps[k].updatedAt)
    && (forall j | k < j < |ps| && ps[j].pubkey == ps[k].pubkey :: ps[j].updatedAt < ps[k].updatedAt)
  }

  /** Of each author the newest profile, the last of equals; what was stored, if that is newer than all of them. */
  ghost predicate Latest(ps: seq<Profile>, before: map<string, Profile>, after: map<string, Profile>) {
    && Supplied(ps, before, after)
    && (forall a | a in before && (forall k | 0 <= k < |ps| && ps[k].pubkey == a :: ps[k].updatedAt < before[a].updatedAt) ::
          after[a] == before[a])
    && (forall k | LastNewest(ps, k) && (ps[k].pubkey in before ==> ps[k].updatedAt >= before[ps[k].pubkey].updatedAt) ::
          after[ps[k].pubkey] == ps[k])
  }

  /** The rows are those of before and of the authors heard of; what they hold was stored or heard, and nothing of the author is newer. */
  ghost predicate Supplied(ps: seq<Profile>, before: map<string, Profile>, after: map<string, Profile>) {
    && (forall a | a in before :: a in after && after[a].updatedAt >= before[a].updatedAt)
    && (forall k | 0 <= k < |ps| :: ps[k].pubkey in after && after[ps[k].pubkey].updatedAt >= ps[k].updatedAt)
    && (forall a | a in after :: (a in before && after[a] == before[a]) || Heard(ps, after[a], a))
  }

  predicate Heard(ps: seq<Profile>, p: Profile, author: string) {
    exists k | 0 <= k < |ps| :: ps[k].pubkey == author && ps[k] == p
  }

  lemma SuppliedSnoc(ps: seq<Profile>, p: Profile, before: map<string, Profile>, mid: map<string, Profile>, after: map<string, Profile>)
    requires Supplied(ps, before, mid) && Replaces(p, mid, after)
    ensures Supplied(ps + [p], before, after)
  {
    var all := ps + [p];
    assert all[|ps|] == p;
    forall a | a in after
      ensures (a in before && after[a] == before[a]) || Heard(all, after[a], a)
    {
      if a in mid && Heard(ps, mid[a], a) {
        var k :| 0 <= k < |ps| && ps[k].pubkey == a && ps[k] == mid[a];
        assert all[k] == mid[a];
      }
    }
  }

  /** One more profile, stored unless the row is strictly newer. */
  lemma LatestSnoc(ps: seq<Profile>, p: Profile, before: map<string, Profile>, mid: map<string, Profile>, after: map<string, Profile>)
    requires Latest(ps, before, mid) && Replaces(p, mid, after)
    ensures Latest(ps + [p], before, after)
  {
    var all := ps + [p];
    SuppliedSnoc(ps, p, before, mid, after);
    assert forall j | 0 <= j < |ps| :: all[j] == ps[j];
    assert all[|ps|] == p;
    forall k | LastNewest(all, k) && (all[k].pubkey in before ==> all[k].updatedAt >= before[all[k].pubkey].updatedAt)
      ensures after[all[k].pubkey] == all[k]
    {
      if k < |ps| {
        assert LastNewest(ps, k);
      } else if p.pubkey in mid && Heard(ps, mid[p.pubkey], p.pubkey) {
        var j :| 0 <= j < |ps| && ps[j].pubkey == p.pubkey && ps[j] == mid[p.pubkey];
        assert all[j].updatedAt <= all[k].updatedAt;
      }
    }
    OldStands(ps, p, before, mid, after);
  }

  /** A stored profile newer than all of them stays. */
  lemma OldStands(ps: seq<Profile>, p: Profile, before: map<string, Profile>, mid: map<string, Profile>, after: map<string, Profile>)
    requires Latest(ps, before, mid) && Replaces(p, mid, after)
    ensures var all := ps + [p];
            forall a | a in before && (forall k | 0 <= k < |all| && all[k].pubkey == a :: all[k].updatedAt < before[a].updatedAt) ::
              a in after && after[a] == before[a]
  {
    var all := ps + [p];
    forall a | a in before && (forall k | 0 <= k < |all| && all[k].pubkey == a :: all[k].updatedAt < before[a].updatedAt)
      ensures a in after && after[a] == before[a]
    {
      assert all[|ps|] == p;
      assert forall k | 0 <= k < |ps| && ps[k].pubkey == a :: all[k].updatedAt < before[a].updatedAt;
    }
  }

  function KeepOne(rows: map<string, Profile>, p: Profile): map<string, Profile> {
    if p.pubkey in rows && rows[p.pubkey].updatedAt > p.updatedAt then rows else rows[p.pubkey := p]
  }

  function KeepEach(rows: map<string, Profile>, ps: seq<Profile>): map<string, Profile> {
    if ps == [] then rows else KeepOne(KeepEach(rows, ps[..|ps| - 1]), ps[|ps| - 1])
  }

  lemma KeepEachOne(rows: map<string, Profile>, p: Profile)
    ensures KeepEach(rows, [p]) == KeepOne(rows, p)
  {
    assert [p][..0] == [];
  }

  lemma {:induction false} KeepEachMore(rows: map<string, Profile>, ps: seq<Profile>, more: seq<Profile>)
    ensures KeepEach(rows, ps + more) == KeepEach(KeepEach(rows, ps), more)
  {
    if more == [] {
      assert ps + more == ps;
    } else {
      assert (ps + more)[..|ps + more| - 1] == ps + more[..|more| - 1];
      KeepEachMore(rows, ps, more[..|more| - 1]);
    }
  }

  lemma KeepReplaces(rows: map<string, Profile>, p: Profile)
    ensures Replaces(p, rows, KeepOne(rows, p))
  {
  }

  lemma LatestKept(ps: seq<Profile>, p: Profile, before: map<string, Profile>, mid: map<string, Profile>)
    requires Latest(ps, before, mid)
    ensures Latest(ps + [p], before, KeepOne(mid, p))
  {
    KeepReplaces(mid, p);
    LatestSnoc(ps, p, before, mid, KeepOne(mid, p));
  }

  lemma {:induction false} EachLatest(rows: map<string, Profile>, ps: seq<Profile>)
    ensures Latest(ps, rows, KeepEach(rows, ps))
  {
    if ps != [] {
      var init, p := ps[..|ps| - 1], ps[|ps| - 1];
      assert ps == init + [p];
      EachLatest(rows, init);
      LatestKept(init, p, rows, KeepEach(rows, init));
    }
  }

  lemma {:induction false} LatestOf(ps: seq<Profile>, author: string) returns (k: nat)
    requires exists i | 0 <= i < |ps| :: ps[i].pubkey == author
    ensures LastNewest(ps, k) && ps[k].pubkey == author
  {
    var n := |ps| - 1;
    k := n;
    if i :| 0 <= i < n && ps[i].pubkey == author {
      assert ps[..n][i].pubkey == author;
      k := LatestOf(ps[..n], author);
      assert forall j | 0 <= j < n :: ps[j] == ps[..n][j];
      if ps[n].pubkey == author && ps[n].updatedAt >= ps[k].updatedAt {
        k := n;
      }
    }
  }

  lemma LatestIsExact(ps: seq<Profile>, before: map<string, Profile>, after: map<string, Profile>, other: map<string, Profile>)
    requires Latest(ps, before, after) && Latest(ps, before, other)
    ensures after == other
  {
    LatestAgrees(ps, before, after, other);
    LatestAgrees(ps, before, other, after);
  }

  lemma LatestAgrees(ps: seq<Profile>, before: map<string, Profile>, after: map<string, Profile>, other: map<string, Profile>)
    requires Latest(ps, before, after) && Latest(ps, before, other)
    ensures forall a | a in after :: a in other && after[a] == other[a]
  {
    forall a | a in after
      ensures a in other && after[a] == other[a]
    {
      if exists i | 0 <= i < |ps| :: ps[i].pubkey == a {
        var k := LatestOf(ps, a);
      }
    }
  }
}
