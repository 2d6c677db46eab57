/** Fetching the reactions of many messages at once, instead of one query per message. */
module Reactions {
  import opened Domain
  import opened MessageTables
  import Ordering

  type Row = (Id, ReactionKey)

  /** The rows of one message, in the order they come. */
  function Only(rows: seq<Row>, message: Id): seq<ReactionKey>
    decreases |rows|
  {
    if rows == [] then []
    else if rows[0].0 == message then [rows[0].1] + Only(rows[1..], message)
    else Only(rows[1..], message)
  }

  function Grouped(m: map<Id, seq<ReactionKey>>, message: Id): seq<ReactionKey>
  {
    if message in m then m[message] else []
  }

  lemma {:induction false} OnlyElements(rows: seq<Row>, message: Id)
    ensures forall k :: k in Only(rows, message) <==> (message, k) in rows
    decreases |rows|
  {
    if rows != [] {
      OnlyElements(rows[1..], message);
      assert rows == [rows[0]] + rows[1..];
    }
  }

  lemma {:induction false} OnlyAscending(rows: seq<Row>, message: Id)
    requires Ordering.Ascending(EarlierRow, rows)
    ensures Ordering.Ascending(Earlier, Only(rows, message))
    decreases |rows|
  {
    if rows != [] {
      OnlyAscending(rows[1..], message);
      OnlyElements(rows[1..], message);
      var rest := Only(rows[1..], message);
      forall j | 0 <= j < |rest| && rows[0].0 == message
        ensures Earlier(rows[0].1, rest[j])
      {
        assert rest[j] in rest;
        var i :| 0 <= i < |rows[1..]| && rows[1..][i] == (message, rest[j]);
        assert EarlierRow(rows[0], rows[i + 1]);
      }
    }
  }

  /** For every list of messages the batch gives each listed one exactly what its own query
      gives, in the same order, and nothing to any other. */
  lemma BatchIsSingle(s: Store, users: set<Id>, messages: seq<Id>, message: Id)
    ensures Only(BatchRows(s, users, messages), message) ==
              if message in messages then GetReactions(s, users, message) else []
  {
    EarlierTotal();
    var rows := BatchRows(s, users, messages);
    OnlyElements(rows, message);
    OnlyAscending(rows, message);
    var got := Only(rows, message);
    if message in messages {
      forall k: ReactionKey
        ensures k in got <==> k in ReactionKeys(s, users, message)
      {
        if k in ReactionKeys(s, users, message) {
          assert (message, k) in rows by {
            assert (message, k.1, k.2) in s.reactions.Keys;
          }
        }
      }
      Ordering.AscendingUnique(Earlier, got, GetReactions(s, users, message));
    } else if got != [] {
      Ordering.HeadIsIn(got);
      assert false;
    }
  }

  /** The row loop: result[row.message] = append(result[row.message], row). */
  method GroupRows(rows: seq<Row>) returns (result: map<Id, seq<ReactionKey>>)
    ensures forall m :: Grouped(result, m) == Only(rows, m)
  {
    result := map[];
    for i := 0 to |rows|
      invariant forall m :: Grouped(result, m) + Only(rows[i..], m) == Only(rows, m)
    {
      var (message, k) := rows[i];
      assert rows[i..][1..] == rows[i + 1..];
      ghost var before := result;
      result := result[message := Grouped(result, message) + [k]];
      forall m: Id
        ensures Grouped(result, m) + Only(rows[i + 1..], m) == Only(rows, m)
      {
        assert Grouped(before, m) + Only(rows[i..], m) == Only(rows, m);
        if m == message {
          assert Grouped(before, m) + ([k] + Only(rows[i + 1..], m)) == Grouped(result, m) + Only(rows[i + 1..], m);
        }
      }
    }
    forall m: Id
      ensures Grouped(result, m) == Only(rows, m)
    {
      assert Grouped(result, m) + Only(rows[|rows|..], m) == Only(rows, m);
      assert Only(rows[|rows|..], m) == [];
    }
  }

  /** An empty list asks the database nothing. */
  method GetReactionsBatch(s: Store, users: set<Id>, messages: seq<Id>) returns (result: map<Id, seq<ReactionKey>>)
    ensures forall m :: Grouped(result, m) == if m in messages then GetReactions(s, users, m) else []
  {
    if |messages| == 0 {
      return map[];
    }
    result := GroupRows(BatchRows(s, users, messages));
    forall m: Id
      ensures Grouped(result, m) == if m in messages then GetReactions(s, users, m) else []
    {
      BatchIsSingle(s, users, messages, m);
    }
  }
}
