/** src/pages/admin/DashboardHome.jsx: the dashboard statistics and the
    status badge of a listed survey. */
module DashboardHome {
  import opened Seqs
  import opened MockData
  import opened PollService
  import opened ResponseService

  datatype DashboardStats = DashboardStats(totalSurveys: nat, activeSurveys: nat,
                                           totalResponses: nat, recentSurveys: seq<Poll>)

  function IsActive(p: Poll): bool { p.status == Active }

  /** The sum over `ps`, in list order, of each poll's number of responses
      in `rs` (what `getResponseCount` returns). */
  function ResponseTotal(rs: seq<Response>, ps: seq<Poll>): nat
  {
    if ps == [] then 0
    else ResponseTotal(rs, ps[..|ps| - 1]) + |ResponsesOfPoll(rs, ps[|ps| - 1].id)|
  }

  function Min(a: int, b: int): int { if a <= b then a else b }

  /** `loadDashboardData()`. */
  method LoadDashboardData(db: Db) returns (stats: DashboardStats)
    ensures var polls := GetAllPolls(db);
            stats.totalSurveys == |db.polls|
            && stats.activeSurveys == |Filter(polls, IsActive)|
            && stats.activeSurveys <= stats.totalSurveys
            && stats.totalResponses == ResponseTotal(db.responses, polls)
            && stats.recentSurveys == polls[..Min(5, |polls|)]
  {
    var polls := GetAllPolls(db);
    var activeSurveys := |Filter(polls, IsActive)|;
    var totalResponses := SumResponseCounts(db, polls);
    var recent := polls[..Min(5, |polls|)];
    stats := DashboardStats(|polls|, activeSurveys, totalResponses, recent);
  }

  /** The `for...of` loop adding up `getResponseCount(poll.id)`. */
  method SumResponseCounts(db: Db, polls: seq<Poll>) returns (total: nat)
    ensures total == ResponseTotal(db.responses, polls)
  {
    total := 0;
    var i := 0;
    while i < |polls|
      invariant 0 <= i <= |polls|
      invariant total == ResponseTotal(db.responses, polls[..i])
    {
      assert polls[..i + 1][..i] == polls[..i];
      var count := GetResponseCount(db, polls[i].id);
      total := total + count;
      i := i + 1;
    }
    assert polls[..i] == polls;
  }

  /** The responses of `rs` whose poll id is in `ids`. */
  function CountIn(rs: seq<Response>, ids: set<int>): nat {
    if rs == [] then 0 else (if rs[0].pollId in ids then 1 else 0) + CountIn(rs[1..], ids)
  }

  lemma {:induction false} CountInBound(rs: seq<Response>, ids: set<int>)
    ensures CountIn(rs, ids) <= |rs|
  {
    if rs != [] {
      CountInBound(rs[1..], ids);
    }
  }

  /** No poll id counts no response. */
  lemma {:induction false} CountInEmpty(rs: seq<Response>)
    ensures CountIn(rs, {}) == 0
  {
    if rs != [] {
      CountInEmpty(rs[1..]);
    }
  }

  /** Adding a new id adds that poll's responses. */
  lemma {:induction false} CountInAdd(rs: seq<Response>, ids: set<int>, id: int)
    requires id !in ids
    ensures CountIn(rs, ids + {id}) == CountIn(rs, ids) + |ResponsesOfPoll(rs, id)|
  {
    if rs != [] {
      CountInAdd(rs[1..], ids, id);
    }
  }

  function PollIds(ps: seq<Poll>): set<int> {
    set p | p in ps :: p.id
  }

  /** Over polls with distinct ids the total counts each response of a
      listed poll once, so it never exceeds the number of responses. */
  lemma {:induction false} ResponseTotalCounts(rs: seq<Response>, ps: seq<Poll>)
    requires DistinctBy(ps, PollId)
    ensures ResponseTotal(rs, ps) == CountIn(rs, PollIds(ps))
    ensures ResponseTotal(rs, ps) <= |rs|
  {
    if ps != [] {
      var n := |ps| - 1;
      var init := ps[..n];
      assert DistinctBy(init, PollId) by {
        forall i, j | 0 <= i < j < |init| ensures PollId(init[i]) != PollId(init[j]) {
          assert init[i] == ps[i] && init[j] == ps[j];
        }
      }
      ResponseTotalCounts(rs, init);
      assert ps == init + [ps[n]];
      assert PollIds(ps) == PollIds(init) + {ps[n].id};
      assert ps[n].id !in PollIds(init) by {
        forall p | p in init ensures p.id != ps[n].id {
          var m :| 0 <= m < |init| && init[m] == p;
          assert PollId(ps[m]) != PollId(ps[n]);
        }
      }
      CountInAdd(rs, PollIds(init), ps[n].id);
    } else {
      assert PollIds(ps) == {};
      CountInEmpty(rs);
    }
    CountInBound(rs, PollIds(ps));
  }

  /** The badge key of a listed survey. */
  function StatusBadge(status: PollStatus): (key: string)
    ensures key == "admin.active" <==> status == Active
    ensures key == "admin.draft" <==> status != Active
  {
    if status == Active then "admin.active" else "admin.draft"
  }
}
