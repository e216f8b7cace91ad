/** The `Question` model: questions with a `votes` counter and a
    `question_votes` table of (question, user) pairs that keeps each user to one
    vote. It is written against its own schema (`question`, `asked_by`,
    `votes`, `users.name`), held here by a class of its own. */
module QuestionModel {
  import opened Common
  import opened Ordering

  datatype Entry = Entry(question: string, askedBy: int, eventId: int, votes: int, created: int)

  /** A row as the queries select it, with the asker's name from a left join:
      `None` when no user row matches. */
  datatype EntryView = EntryView(id: int, question: string, askedBy: int, eventId: int,
                                 votes: int, created: int, askerName: Option<string>)

  /** The users who hold a vote row for question `q`. */
  function Voters(votes: set<(int, int)>, q: int): (r: set<int>)
    ensures forall u :: u in r <==> (q, u) in votes
  {
    set p | p in votes && p.0 == q :: p.1
  }

  /** Adding a user's vote row adds that user to the question's voters and
      leaves every other question's voters alone. */
  lemma VotersAfterAdd(votes: set<(int, int)>, q: int, u: int)
    requires (q, u) !in votes
    ensures |Voters(votes + {(q, u)}, q)| == |Voters(votes, q)| + 1
    ensures forall o :: o != q ==> Voters(votes + {(q, u)}, o) == Voters(votes, o)
  {
    assert Voters(votes + {(q, u)}, q) == Voters(votes, q) + {u};
  }

  /** Removing a user's vote row takes at most that user off the voters. */
  lemma VotersAfterRemove(votes: set<(int, int)>, q: int, u: int)
    ensures |Voters(votes - {(q, u)}, q)| == |Voters(votes, q)| - (if (q, u) in votes then 1 else 0)
    ensures forall o :: o != q ==> Voters(votes - {(q, u)}, o) == Voters(votes, o)
  {
    if (q, u) in votes {
      assert Voters(votes, q) == Voters(votes - {(q, u)}, q) + {u};
    } else {
      assert Voters(votes - {(q, u)}, q) == Voters(votes, q);
    }
  }

  /** `ORDER BY q.votes DESC, q.created_at DESC`. */
  function MostVoted(): (EntryView, EntryView) -> bool
  {
    (a: EntryView, b: EntryView) => a.votes > b.votes || (a.votes == b.votes && a.created >= b.created)
  }

  lemma MostVotedIsPreorder()
    ensures Total(MostVoted()) && Transitive(MostVoted())
  {
  }

  class QuestionBoard {
    var questions: map<int, Entry>
    var lastId: int
    var votes: set<(int, int)>
    /** `users.name` by `users.id`, read by the joins only. */
    var userNames: map<int, string>

    /** Ids are AUTOINCREMENT ids, and no question counts more votes than it has
        distinct voters, nor fewer than none. */
    ghost predicate Valid()
      reads this
    {
      0 <= lastId &&
      forall id :: id in questions ==> 1 <= id <= lastId && 0 <= questions[id].votes <= |Voters(votes, id)|
    }

    constructor(userNames: map<int, string>)
      ensures Valid()
      ensures questions == map[] && votes == {} && this.userNames == userNames
    {
      questions := map[];
      lastId := 0;
      votes := {};
      this.userNames := userNames;
    }

    function ViewOf(id: int): (r: EntryView)
      reads this
      requires id in questions
      ensures r.id == id && r.question == questions[id].question && r.askedBy == questions[id].askedBy
      ensures r.eventId == questions[id].eventId && r.votes == questions[id].votes && r.created == questions[id].created
      ensures r.askerName == (if questions[id].askedBy in userNames then Some(userNames[questions[id].askedBy]) else None)
    {
      var e := questions[id];
      EntryView(id, e.question, e.askedBy, e.eventId, e.votes, e.created,
                if e.askedBy in userNames then Some(userNames[e.askedBy]) else None)
    }

    /** `Question.create(data)`: the new id; the question starts with no votes. */
    method Create(question: string, askedBy: int, eventId: int, now: int) returns (id: int)
      requires Valid()
      modifies this
      ensures Valid()
      ensures id == old(lastId) + 1 && id !in old(questions)
      ensures questions == old(questions)[id := Entry(question, askedBy, eventId, 0, now)]
      ensures lastId == id && votes == old(votes) && userNames == old(userNames)
    {
      id := lastId + 1;
      questions := questions[id := Entry(question, askedBy, eventId, 0, now)];
      lastId := id;
    }

    function ViewsOf(ks: seq<int>): (r: seq<EntryView>)
      reads this
      requires forall k :: k in ks ==> k in questions
      requires forall i, j :: 0 <= i < j < |ks| ==> ks[i] < ks[j]
      ensures forall v :: v in r <==> v.id in ks && v == ViewOf(v.id)
      ensures NoDuplicates(r)
    {
      if ks == [] then []
      else
        var rest := ViewsOf(ks[1..]);
        assert forall v :: v in rest ==> ks[0] < v.id;
        [ViewOf(ks[0])] + rest
    }

    /** The ids of the event's questions, ascending. */
    function IdsOfEvent(e: int, last: int): (r: seq<int>)
      reads this
      ensures forall k :: k in r <==> k in questions && questions[k].eventId == e && 1 <= k <= last
      ensures forall i, j :: 0 <= i < j < |r| ==> r[i] < r[j]
      ensures forall i :: 0 <= i < |r| ==> r[i] <= last
      decreases last
    {
      if last < 1 then []
      else IdsOfEvent(e, last - 1) + (if last in questions && questions[last].eventId == e then [last] else [])
    }

    /** `Question.findByEventId(eventId)`: exactly the event's questions, each
        once, the most voted first and, among equal counts, the newest first. */
    function FindByEventId(e: int): (r: seq<EntryView>)
      reads this
      requires Valid()
      ensures forall v :: v in r <==> v.id in questions && questions[v.id].eventId == e && v == ViewOf(v.id)
      ensures NoDuplicates(r)
      ensures forall i, j :: 0 <= i < j < |r| ==>
        r[i].votes > r[j].votes || (r[i].votes == r[j].votes && r[i].created >= r[j].created)
    {
      var vs := ViewsOf(IdsOfEvent(e, lastId));
      MostVotedIsPreorder();
      SortBySorted(vs, MostVoted());
      SortByKeepsElements(vs, MostVoted());
      SortByNoDuplicates(vs, MostVoted());
      SortBy(vs, MostVoted())
    }

    /** `Question.findById(id)`: the row, or `undefined`. */
    function FindById(id: int): (r: Option<EntryView>)
      reads this
      ensures r.Some? <==> id in questions
      ensures r.Some? ==> r.value == ViewOf(id)
    {
      if id in questions then Some(ViewOf(id)) else None
    }

    /** `Question.hasUserVoted(questionId, userId)`. */
    function HasUserVoted(q: int, u: int): (r: bool)
      reads this
      ensures r <==> u in Voters(votes, q)
    {
      (q, u) in votes
    }

    /** `Question.addVote(questionId, userId)`: a user who already voted gets 0
        and changes nothing; otherwise the vote row is added and the question's
        count rises by one, and the result is the number of questions updated. */
    method AddVote(q: int, u: int) returns (changes: int)
      requires Valid()
      modifies this
      ensures Valid()
      ensures (q, u) in old(votes) ==> changes == 0 && votes == old(votes) && questions == old(questions)
      ensures (q, u) !in old(votes) ==>
        votes == old(votes) + {(q, u)} &&
        changes == (if q in old(questions) then 1 else 0) &&
        questions == (if q in old(questions) then old(questions)[q := old(questions)[q].(votes := old(questions)[q].votes + 1)]
                      else old(questions))
      ensures lastId == old(lastId) && userNames == old(userNames)
      ensures HasUserVoted(q, u)
    {
      if (q, u) in votes {
        return 0;
      }
      VotersAfterAdd(votes, q, u);
      votes := votes + {(q, u)};
      if q in questions {
        questions := questions[q := questions[q].(votes := questions[q].votes + 1)];
        changes := 1;
      } else {
        changes := 0;
      }
    }

    /** `Question.removeVote(questionId, userId)`: the vote row is deleted, and
        a positive count is lowered by one whether or not the row existed; the
        count never goes below 0. */
    method RemoveVote(q: int, u: int) returns (changes: int)
      requires Valid()
      modifies this
      ensures Valid()
      ensures votes == old(votes) - {(q, u)}
      ensures changes == (if q in old(questions) && old(questions)[q].votes > 0 then 1 else 0)
      ensures questions == (if changes == 1 then old(questions)[q := old(questions)[q].(votes := old(questions)[q].votes - 1)]
                            else old(questions))
      ensures lastId == old(lastId) && userNames == old(userNames)
      ensures !HasUserVoted(q, u)
    {
      VotersAfterRemove(votes, q, u);
      votes := votes - {(q, u)};
      if q in questions && questions[q].votes > 0 {
        questions := questions[q := questions[q].(votes := questions[q].votes - 1)];
        changes := 1;
      } else {
        changes := 0;
      }
    }

    /** `Question.delete(id, userId)`: only the asker can delete a question; for
        anyone else, or an unknown id, nothing changes and the result is 0. */
    method Delete(id: int, userId: int) returns (changes: int)
      requires Valid()
      modifies this
      ensures Valid()
      ensures changes == (if id in old(questions) && old(questions)[id].askedBy == userId then 1 else 0)
      ensures questions == (if changes == 1 then old(questions) - {id} else old(questions))
      ensures votes == old(votes) && lastId == old(lastId) && userNames == old(userNames)
    {
      if id in questions && questions[id].askedBy == userId {
        questions := questions - {id};
        changes := 1;
      } else {
        changes := 0;
      }
    }
  }
}
