/** Reading the previous round's population out of the simulation history: a
    list of timesteps, each a list of substep states. */
module History {
  import opened NqgTypes

  /** The labels of a list of users, as a set. */
  function Labels(users: seq<User>): (r: set<UserId>)
    ensures forall n :: n in r <==> exists k :: 0 <= k < |users| && users[k].name == n
  {
    set u | u in users :: u.name
  }

  /** `retrieve_prev_state_users`: with more than one timestep recorded, the
      labels of the users in the last substep of the last timestep; otherwise
      nothing. Indexing an empty last timestep fails. */
  function RetrievePrevStateUsers(history: seq<seq<ModelState>>): (r: Option<set<UserId>>)
    ensures |history| <= 1 ==> r == Some({})
    ensures |history| > 1 ==> (r.None? <==> history[|history| - 1] == [])
    ensures |history| > 1 && r.Some? ==>
              var last := history[|history| - 1];
              forall n :: n in r.value <==> exists u :: u in last[|last| - 1].users && u.name == n
  {
    if |history| > 1 then
      var last := history[|history| - 1];
      if last == [] then None else Some(Labels(last[|last| - 1].users))
    else Some({})
  }

  /** One more user adds exactly its label. */
  lemma LabelsAppend(init: seq<User>, last: User)
    ensures Labels(init + [last]) == Labels(init) + {last.name}
  {
    var users := init + [last];
    forall n | n in Labels(users) ensures n in Labels(init) + {last.name}
    {
      var k :| 0 <= k < |users| && users[k].name == n;
      if k < |init| { assert init[k] == users[k]; }
    }
    forall n | n in Labels(init) ensures n in Labels(users)
    {
      var k :| 0 <= k < |init| && init[k].name == n;
      assert users[k] == init[k];
    }
    assert users[|init|] == last;
  }

  /** There are never more labels than users. */
  lemma {:induction false} LabelsCardinality(users: seq<User>)
    ensures |Labels(users)| <= |users|
    decreases |users|
  {
    if users != [] {
      var init := users[..|users| - 1];
      LabelsCardinality(init);
      assert users == init + [users[|users| - 1]];
      LabelsAppend(init, users[|users| - 1]);
    }
  }

  /** Without repeated labels there are exactly as many labels as users. */
  lemma {:induction false} DistinctLabelsCount(users: seq<User>)
    requires forall a, b :: 0 <= a < b < |users| ==> users[a].name != users[b].name
    ensures |Labels(users)| == |users|
    decreases |users|
  {
    if users != [] {
      var init := users[..|users| - 1];
      var last := users[|users| - 1];
      forall a, b | 0 <= a < b < |init| ensures init[a].name != init[b].name {
        assert init[a] == users[a] && init[b] == users[b];
      }
      DistinctLabelsCount(init);
      assert users == init + [last];
      LabelsAppend(init, last);
      forall k | 0 <= k < |init| ensures init[k].name != last.name {
        assert init[k] == users[k];
      }
      assert last.name !in Labels(init);
    }
  }

  /** The previous population has at most as many labels as the last recorded
      state has users. */
  lemma PrevStateUsersBounded(history: seq<seq<ModelState>>)
    requires |history| > 1 && history[|history| - 1] != []
    ensures var last := history[|history| - 1];
            |RetrievePrevStateUsers(history).value| <= |last[|last| - 1].users|
  {
    var last := history[|history| - 1];
    LabelsCardinality(last[|last| - 1].users);
  }

  /** Only the last substep of the last timestep matters: histories that agree
      there give the same answer, whatever came before. */
  lemma PrevStateUsersDependsOnLast(h1: seq<seq<ModelState>>, h2: seq<seq<ModelState>>)
    requires |h1| > 1 && |h2| > 1
    requires h1[|h1| - 1] != [] && h2[|h2| - 1] != []
    requires h1[|h1| - 1][|h1[|h1| - 1]| - 1].users == h2[|h2| - 1][|h2[|h2| - 1]| - 1].users
    ensures RetrievePrevStateUsers(h1) == RetrievePrevStateUsers(h2)
  {
  }

  /** Two users with one label count once. */
  lemma DuplicateLabelsCollapse(a: User, b: User, st: ModelState)
    requires a.name == b.name && a != b
    ensures var h: seq<seq<ModelState>> := [[st], [st.(users := [a, b])]];
            RetrievePrevStateUsers(h) == Some({a.name})
  {
    var h: seq<seq<ModelState>> := [[st], [st.(users := [a, b])]];
    assert h[1][0].users == [a, b];
    assert Labels([a, b]) == {a.name};
  }
}
