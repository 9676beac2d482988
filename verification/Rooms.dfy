/**
 The in-memory room registry: an array of names whose live part is a prefix, scanned
 linearly, extended at the end and shrunk by moving the last name into the hole.
 */
module Rooms {
  import opened FieldCodec
  import opened CliProtocol

  const NAME_SIZE: nat := 64

  // ----- The registry as a sequence -----

  predicate Distinct(rooms: seq<string>) {
    forall i, j :: 0 <= i < j < |rooms| ==> rooms[i] != rooms[j]
  }

  ghost function Names(rooms: seq<string>): set<string> {
    set i | 0 <= i < |rooms| :: rooms[i]
  }

  /** Position of a name, or the length if it is absent. */
  function Position(rooms: seq<string>, name: string): (i: nat)
    ensures i <= |rooms| && name !in rooms[..i]
    ensures i < |rooms| ==> rooms[i] == name
  {
    if rooms == [] then 0
    else if rooms[0] == name then 0
    else
      var i := Position(rooms[1..], name);
      assert rooms[..i + 1] == [rooms[0]] + rooms[1..][..i];
      i + 1
  }

  /** Removal moves the last name into the hole. */
  function SwapDelete(rooms: seq<string>, i: nat): seq<string>
    requires i < |rooms|
  {
    rooms[i := rooms[|rooms| - 1]][..|rooms| - 1]
  }

  /** The reply code of a command and the registry after it. */
  function Execute(rooms: seq<string>, cap: nat, op: Command, name: string): (int, seq<string>) {
    var i := Position(rooms, name);
    match op
    case Create =>
      if i < |rooms| then (1003, rooms)
      else if |rooms| >= cap then (1100, rooms)
      else (0, rooms + [name])
    case Delete =>
      if i < |rooms| then (0, SwapDelete(rooms, i)) else (1002, rooms)
    case _ =>
      (if i < |rooms| then 0 else 1002, rooms)
  }

  /** The reference: a set of at most `cap` names. */
  ghost function Reference(names: set<string>, cap: nat, op: Command, name: string): (int, set<string>) {
    match op
    case Create =>
      if name in names then (1003, names)
      else if |names| >= cap then (1100, names)
      else (0, names + {name})
    case Delete =>
      (if name in names then 0 else 1002, names - {name})
    case _ =>
      (if name in names then 0 else 1002, names)
  }

  lemma {:induction false} NamesCount(rooms: seq<string>)
    requires Distinct(rooms)
    ensures |Names(rooms)| == |rooms|
  {
    if rooms == [] {
      assert Names(rooms) == {};
    } else {
      var n := |rooms| - 1;
      NamesCount(rooms[..n]);
      assert Names(rooms) == Names(rooms[..n]) + {rooms[n]};
    }
  }

  lemma SwapDeleteRemoves(rooms: seq<string>, i: nat)
    requires Distinct(rooms) && i < |rooms|
    ensures Distinct(SwapDelete(rooms, i))
    ensures Names(SwapDelete(rooms, i)) == Names(rooms) - {rooms[i]}
  {
    var r, n := SwapDelete(rooms, i), |rooms| - 1;
    assert forall k :: 0 <= k < n ==> r[k] == if k == i then rooms[n] else rooms[k];
    forall x | x in Names(rooms) - {rooms[i]}
      ensures x in Names(r)
    {
      var k :| 0 <= k < |rooms| && rooms[k] == x;
      assert x == r[if k == n then i else k];
    }
  }

  lemma PositionIsMembership(rooms: seq<string>, name: string)
    ensures Position(rooms, name) < |rooms| <==> name in Names(rooms)
  {
    var i := Position(rooms, name);
    if i < |rooms| {
      assert rooms[i] in Names(rooms);
    } else {
      assert rooms[..i] == rooms;
    }
  }

  lemma AppendAdds(rooms: seq<string>, name: string)
    requires Distinct(rooms) && Position(rooms, name) == |rooms|
    ensures Distinct(rooms + [name]) && Names(rooms + [name]) == Names(rooms) + {name}
  {
    var more := rooms + [name];
    assert rooms[..|rooms|] == rooms;
    assert more[|rooms|] == name && forall k :: 0 <= k < |rooms| ==> more[k] == rooms[k];
  }

  /** One command on a duplicate-free registry is one command on a set of names. */
  lemma ExecuteIsReference(rooms: seq<string>, cap: nat, op: Command, name: string)
    requires Distinct(rooms) && |rooms| <= cap
    ensures var (code, after) := Execute(rooms, cap, op, name);
            && Distinct(after) && |after| <= cap
            && Reference(Names(rooms), cap, op, name) == (code, Names(after))
  {
    NamesCount(rooms);
    PositionIsMembership(rooms, name);
    var i := Position(rooms, name);
    if op == Create && i == |rooms| {
      AppendAdds(rooms, name);
    } else if op == Delete && i < |rooms| {
      SwapDeleteRemoves(rooms, i);
    } else if op == Delete {
      assert Names(rooms) - {name} == Names(rooms);
    }
  }

  /**
   From the words on the command line to the registry and the reply code, for arguments that
   fit the client's buffer.
   */
  lemma CommandEffect(argv: seq<string>, rooms: seq<string>, cap: nat)
    requires Build(argv).Payload? && NulFree(argv) && QUOTE !in argv[2] && QUOTE !in argv[3]
    requires Distinct(rooms) && |rooms| <= cap
    ensures argv[2] == "room" && |Head(argv[1], argv[2], argv[3])| <= 511 ==>
              && ParseCli(Build(argv).text).OnRoom?
              && Effect(argv[1], Cut(argv[3], 64), rooms, cap,
                        Execute(rooms, cap, ParseCli(Build(argv).text).op, ParseCli(Build(argv).text).name))
    ensures argv[2] != "room" || |Head(argv[1], argv[2], argv[3])| > 511 ==> ParseCli(Build(argv).text) == BadRequest
  {
    CliRoundTrip(argv);
    if argv[2] == "room" && |Head(argv[1], argv[2], argv[3])| <= 511 {
      WordEffect(argv[1], ParseCli(Build(argv).text).op, Cut(argv[3], 64), rooms, cap);
    }
  }

  /** What each command word does to the names, and the code it is answered with. */
  ghost predicate Effect(word: string, name: string, rooms: seq<string>, cap: nat, result: (int, seq<string>)) {
    var (code, after) := result;
    var names, there := Names(rooms), name in Names(rooms);
    && Distinct(after) && |after| <= cap
    && if word == "create" then
         && code == (if there then 1003 else if |rooms| == cap then 1100 else 0)
         && Names(after) == if code == 0 then names + {name} else names
       else if word == "delete" then
         && code == (if there then 0 else 1002)
         && Names(after) == names - {name}
       else
         && word in ["start", "stop", "show", "edit"]
         && code == (if there then 0 else 1002)
         && after == rooms
  }

  lemma WordEffect(word: string, op: Command, name: string, rooms: seq<string>, cap: nat)
    requires CommandOf(word) == Some(op) && Distinct(rooms) && |rooms| <= cap
    ensures Effect(word, name, rooms, cap, Execute(rooms, cap, op, name))
  {
    OperationEffect(op, name, rooms, cap);
    assert op == Create <==> word == "create";
    assert op == Delete <==> word == "delete";
  }

  lemma OperationEffect(op: Command, name: string, rooms: seq<string>, cap: nat)
    requires Distinct(rooms) && |rooms| <= cap
    ensures var (code, after) := Execute(rooms, cap, op, name);
            var names, there := Names(rooms), name in Names(rooms);
            && Distinct(after) && |after| <= cap
            && (op.Create? ==> code == if there then 1003 else if |rooms| == cap then 1100 else 0)
            && (op.Create? ==> Names(after) == if code == 0 then names + {name} else names)
            && (!op.Create? ==> code == if there then 0 else 1002)
            && (op.Delete? ==> Names(after) == names - {name})
            && (!op.Create? && !op.Delete? ==> after == rooms)
  {
    ExecuteIsReference(rooms, cap, op, name);
    PositionIsMembership(rooms, name);
    NamesCount(rooms);
  }

  // ----- The registry as the source holds it -----

  class Registry {
    const rooms: array<string>
    var count: nat

    ghost predicate Valid()
      reads this, rooms
    {
      count <= rooms.Length && Distinct(rooms[..count])
    }

    constructor (cap: nat)
      ensures Valid() && count == 0 && rooms.Length == cap && fresh(rooms)
    {
      rooms := new string[cap];
      count := 0;
    }

    /** The scan every operation starts with. */
    method Search(name: string) returns (i: nat)
      requires Valid()
      ensures i == Position(rooms[..count], name)
    {
      i := 0;
      while i < count && rooms[i] != name
        invariant i <= count
        invariant name !in rooms[..i]
      {
        i := i + 1;
      }
      assert rooms[..count][..i] == rooms[..i];
    }

    method Exists(name: string) returns (ok: bool)
      requires Valid()
      ensures ok <==> name in Names(rooms[..count])
    {
      var i := Search(name);
      PositionIsMembership(rooms[..count], name);
      ok := i < count;
    }

    /** 0 created, 1 already there, -1 full; names arrive already cut to the buffer. */
    method Create(name: string) returns (r: int)
      requires Valid() && |name| < NAME_SIZE
      modifies this, rooms
      ensures Valid()
      ensures (if r == 0 then 0 else if r == 1 then 1003 else 1100, rooms[..count]) ==
              Execute(old(rooms[..count]), rooms.Length, Command.Create, name)
    {
      ExecuteIsReference(rooms[..count], rooms.Length, Command.Create, name);
      var i := Search(name);
      if i < count {
        return 1;
      }
      if count >= rooms.Length {
        return -1;
      }
      rooms[count] := name;
      count := count + 1;
      assert rooms[..count] == old(rooms[..count]) + [name];
      return 0;
    }

    /** 0 deleted, 1 not found. */
    method Delete(name: string) returns (r: int)
      requires Valid()
      modifies this, rooms
      ensures Valid()
      ensures (if r == 0 then 0 else 1002, rooms[..count]) ==
              Execute(old(rooms[..count]), rooms.Length, Command.Delete, name)
    {
      ExecuteIsReference(rooms[..count], rooms.Length, Command.Delete, name);
      var i := Search(name);
      if i == count {
        return 1;
      }
      count := count - 1;
      if i != count {
        rooms[i] := rooms[count];
      }
      assert rooms[..count] == SwapDelete(old(rooms[..count]), i);
      return 0;
    }
  }
}
