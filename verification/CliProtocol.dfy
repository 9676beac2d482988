/**
 The command-line protocol end to end: `build_payload` on the client, dispatch and
 field extraction on the server, and the legacy request fields.
 */
module CliProtocol {
  import opened FieldCodec

  const PAYLOAD_SIZE: nat := 512

  datatype Command = Create | Delete | Start | Stop | Edit | Show

  // ----- Client -----

  datatype Built = Help | BadArguments | Payload(text: string)

  /** One field of the format string: `,"key":"value"`, or with `{` before the first. */
  function Field(lead: string, key: string, value: string): string {
    lead + [QUOTE] + key + [QUOTE] + ":" + [QUOTE] + value + [QUOTE]
  }

  /** The text up to and including the closing quote of the name. */
  function Head(cmd: string, target: string, name: string): string {
    Field("{", "cmd", cmd) + Field(",", "target", target) + Field(",", "name", name)
  }

  function EditTail(key: string, val: string): string {
    Field(",", "key", key) + Field(",", "val", val) + "}"
  }

  function CommandOf(cmd: string): Option<Command> {
    if cmd == "create" then Some(Create)
    else if cmd == "delete" then Some(Delete)
    else if cmd == "start" then Some(Start)
    else if cmd == "stop" then Some(Stop)
    else if cmd == "edit" then Some(Edit)
    else if cmd == "show" then Some(Show)
    else None
  }

  predicate KnownCommand(cmd: string) {
    CommandOf(cmd).Some?
  }

  /** The text after the name's closing quote. */
  function TextTail(argv: seq<string>): string
    requires |argv| >= 2 && (CommandOf(argv[1]) == Some(Edit) ==> |argv| >= 7)
  {
    if CommandOf(argv[1]) == Some(Edit) then EditTail(argv[5], argv[6]) else "}"
  }

  /** build_payload on the whole argument vector; snprintf cuts the text to the buffer. */
  function Build(argv: seq<string>): (r: Built)
    ensures r.Payload? <==> |argv| >= 4 && KnownCommand(argv[1])
                            && (CommandOf(argv[1]) == Some(Edit) ==> |argv| >= 7 && argv[4] == "--set")
    ensures r.Help? <==> |argv| >= 2 && argv[1] == "help"
    ensures r.Payload? ==> |r.text| <= 511
  {
    if |argv| < 2 then BadArguments
    else if argv[1] == "help" then Help
    else if !KnownCommand(argv[1]) || |argv| < 4 then BadArguments
    else if CommandOf(argv[1]) == Some(Edit) && (|argv| < 7 || argv[4] != "--set") then BadArguments
    else Payload(Cut(Head(argv[1], argv[2], argv[3]) + TextTail(argv), PAYLOAD_SIZE))
  }

  // ----- Server -----

  /** What handle_cli makes of a payload before it touches the room registry. */
  datatype Request = BadRequest | OnRoom(op: Command, name: string)

  predicate IsCli(payload: string) {
    Find(CStr(payload), Pattern("cmd")) >= 0
  }

  function ParseCli(payload: string): (r: Request)
    ensures r.OnRoom? ==> |r.name| < 64
  {
    var cmd := GetStr(payload, "cmd", 32);
    var target := GetStr(payload, "target", 32);
    var name := GetStr(payload, "name", 64);
    if cmd.None? || target.None? || name.None? || target.value != "room" then BadRequest
    else
      match CommandOf(cmd.value)
      case None => BadRequest
      case Some(op) => OnRoom(op, name.value)
  }

  /** The id a legacy request is deduplicated under. */
  function EffectiveId(payload: string): (id: string)
    ensures |id| < 64
  {
    match GetStr(payload, "req_id", 64)
    case None => "noid"
    case Some(id) => id
  }

  /** The verdict computed when nothing is cached. */
  predicate Verdict(payload: string) {
    GetStr(payload, "op", 32) != Some("FAIL")
  }

  // ----- Lookups at known places -----

  lemma {:induction false} LocateAt(ts: seq<string>, i: nat, key: string)
    requires 1 <= i < |ts| - 1 && ts[i] == key && key !in ts[1..i]
    ensures Locate(ts, key) == ts[i..]
  {
    if i > 1 {
      assert ts[1] == ts[1..i][0];
      assert ts[1..][1..i - 1] == ts[1..i][1..];
      LocateAt(ts[1..], i - 1, key);
    }
  }

  lemma {:induction false} LocateNone(ts: seq<string>, key: string)
    requires forall i :: 1 <= i < |ts| - 1 ==> ts[i] != key
    ensures Locate(ts, key) == []
  {
    if |ts| >= 3 {
      LocateNone(ts[1..], key);
    }
  }

  lemma {:induction false} AfterColonAt(ts: seq<string>, j: nat)
    requires j + 2 < |ts| && COLON in ts[j] && forall i :: 0 <= i < j ==> COLON !in ts[i]
    ensures AfterColon(ts) == Some(ts[j + 1])
  {
    if j > 0 {
      AfterColonAt(ts[1..], j - 1);
    }
  }

  lemma {:induction false} AfterColonNone(ts: seq<string>)
    requires forall i :: 0 <= i < |ts| - 2 ==> COLON !in ts[i]
    ensures AfterColon(ts) == None
  {
    if |ts| >= 3 {
      AfterColonNone(ts[1..]);
    }
  }

  /** The key is first met as piece i and the next colon is in piece j. */
  lemma LookupAt(ts: seq<string>, key: string, i: nat, j: nat)
    requires 1 <= i <= j < |ts| - 2 && ts[i] == key && key !in ts[1..i]
    requires COLON in ts[j] && forall k :: i <= k < j ==> COLON !in ts[k]
    ensures Lookup(ts, key) == Some(ts[j + 1])
  {
    LocateAt(ts, i, key);
    AfterColonAt(ts[i..], j - i);
  }

  // ----- The client's text in pieces -----

  lemma PiecesStep(t: string, later: string)
    requires QUOTE !in t
    ensures Pieces(t) == [t]
    ensures Pieces(t + [QUOTE] + later) == [t] + Pieces(later)
  {
    var s := t + [QUOTE] + later;
    assert s[..|t|] == t && s[|t| + 1..] == later;
    FirstQuote(t, later);
  }

  lemma {:induction false} PiecesOfJoin(ts: seq<string>)
    requires ts != [] && QuoteFree(ts)
    ensures Pieces(Join(ts)) == ts
  {
    if |ts| == 1 {
      PiecesStep(ts[0], "");
    } else {
      assert ts == [ts[0]] + ts[1..];
      PiecesOfJoin(ts[1..]);
      PiecesStep(ts[0], Join(ts[1..]));
    }
  }

  lemma {:induction false} JoinAppend(a: seq<string>, b: seq<string>)
    requires a != [] && b != []
    ensures Join(a + b) == Join(a) + [QUOTE] + Join(b)
  {
    if |a| == 1 {
      assert (a + b)[1..] == b;
    } else {
      JoinAppend(a[1..], b);
      assert (a + b)[1..] == a[1..] + b;
    }
  }

  function HeadPieces(cmd: string, target: string, name: string): seq<string> {
    ["{", "cmd", ":", cmd, ",", "target", ":", target, ",", "name", ":", name]
  }

  lemma FieldInPieces(lead: string, key: string, value: string)
    ensures Field(lead, key, value) == Join([lead, key, ":", value]) + [QUOTE]
  {
    var ts := [lead, key, ":", value];
    assert ts[1..] == [key, ":", value] && ts[1..][1..] == [":", value] && ts[1..][1..][1..] == [value];
    assert Join([":", value]) == ":" + [QUOTE] + value;
    assert Join([key, ":", value]) == key + [QUOTE] + Join([":", value]);
    assert Join(ts) == lead + [QUOTE] + Join([key, ":", value]);
  }

  lemma HeadInPieces(cmd: string, target: string, name: string)
    ensures Head(cmd, target, name) == Join(HeadPieces(cmd, target, name)) + [QUOTE]
  {
    var a, b, c := ["{", "cmd", ":", cmd], [",", "target", ":", target], [",", "name", ":", name];
    FieldInPieces("{", "cmd", cmd);
    FieldInPieces(",", "target", target);
    FieldInPieces(",", "name", name);
    JoinAppend(a, b);
    JoinAppend(a + b, c);
    assert HeadPieces(cmd, target, name) == (a + b) + c;
  }

  // ----- Round trip -----

  lemma CommandsAreNotKeys(cmd: string)
    requires KnownCommand(cmd)
    ensures cmd !in ["cmd", "target", "name", ":", ","] && |cmd| <= 6 && QUOTE !in cmd && COLON !in cmd && '\0' !in cmd
  {
    assert |cmd| != 3 && cmd[0] != 't' && cmd[0] != 'n';
  }

  lemma TextInPieces(cmd: string, target: string, name: string, rest: string)
    requires KnownCommand(cmd) && QUOTE !in target && QUOTE !in name
    ensures Pieces(Head(cmd, target, name) + rest) == HeadPieces(cmd, target, name) + Pieces(rest)
  {
    CommandsAreNotKeys(cmd);
    var head := HeadPieces(cmd, target, name);
    HeadInPieces(cmd, target, name);
    JoinAppend(head, Pieces(rest));
    PiecesOfJoin(head + Pieces(rest));
  }

  lemma HeadLookups(cmd: string, target: string, name: string, more: seq<string>)
    requires KnownCommand(cmd) && more != []
    ensures var ts := HeadPieces(cmd, target, name) + more;
            && Lookup(ts, "cmd") == Some(cmd)
            && Lookup(ts, "target") == Some(target)
            && Lookup(ts, "name") == Some(name)
  {
    CommandsAreNotKeys(cmd);
    var ts := HeadPieces(cmd, target, name) + more;
    assert ts[1..1] == [];
    LookupAt(ts, "cmd", 1, 2);
    assert ts[1..5] == ["cmd", ":", cmd, ","];
    LookupAt(ts, "target", 5, 6);
    NameLookup(cmd, target, name, more);
  }

  /** A target that is itself the text `name` is met first, but the scan still ends at the name. */
  lemma NameLookup(cmd: string, target: string, name: string, more: seq<string>)
    requires KnownCommand(cmd) && more != []
    ensures Lookup(HeadPieces(cmd, target, name) + more, "name") == Some(name)
  {
    CommandsAreNotKeys(cmd);
    var ts := HeadPieces(cmd, target, name) + more;
    var before := ["cmd", ":", cmd, ",", "target", ":"];
    assert ts[1..7] == before && "name" !in before;
    if target == "name" {
      LookupAt(ts, "name", 7, 10);
    } else {
      assert ts[1..9] == before + [target, ","];
      LookupAt(ts, "name", 9, 10);
    }
  }

  /** Text cut anywhere: whole pieces, then part of one. */
  lemma {:induction false} CutPieces(ts: seq<string>, p: string) returns (j: nat, x: string)
    requires ts != [] && p <= Join(ts)
    ensures j < |ts| && x <= ts[j] && p == Join(ts[..j] + [x])
    ensures |p| < |Join(ts)| && ts[|ts| - 1] == "" ==> j < |ts| - 1
    decreases |ts|
  {
    if |ts| == 1 || |p| <= |ts[0]| {
      j, x := 0, p;
      assert ts[..0] + [x] == [x];
    } else {
      var t, later := ts[0], Join(ts[1..]);
      var p' := p[|t| + 1..];
      assert Join(ts)[|t| + 1..] == later;
      assert p == t + [QUOTE] + p';
      var j', x' := CutPieces(ts[1..], p');
      j, x := j' + 1, x';
      var cut := ts[..j] + [x];
      assert cut[1..] == ts[1..][..j'] + [x'];
    }
  }

  lemma NameMissing(cmd: string, target: string, name: string, j: nat, x: string)
    requires KnownCommand(cmd) && j <= 11
    ensures Lookup(HeadPieces(cmd, target, name)[..j] + [x], "name") == None
  {
    CommandsAreNotKeys(cmd);
    var head := HeadPieces(cmd, target, name);
    var q := head[..j] + [x];
    assert forall i :: 0 <= i < j ==> q[i] == head[i];
    var before := ["cmd", ":", cmd, ",", "target", ":"];
    if target == "name" && j > 7 {
      assert q[1..7] == before;
      LocateAt(q, 7, "name");
      AfterColonNone(q[7..]);
    } else if j > 9 {
      assert q[1..9] == before + [target, ","];
      LocateAt(q, 9, "name");
      AfterColonNone(q[9..]);
    } else {
      LocateNone(q, "name");
    }
  }

  lemma StartsWithCmd(p: string)
    requires '\0' !in p && "{" + Pattern("cmd") <= p
    ensures IsCli(p)
  {
    FindIsFirst(p, Pattern("cmd"));
    assert Pattern("cmd") <= p[1..];
  }

  /** The three fields handle_cli extracts, with its buffer sizes. */
  function Fields(payload: string): (Option<string>, Option<string>, Option<string>) {
    (GetStr(payload, "cmd", 32), GetStr(payload, "target", 32), GetStr(payload, "name", 64))
  }

  function Kept(cmd: string, target: string, name: string): (Option<string>, Option<string>, Option<string>) {
    (Some(cmd), Some(Cut(target, 32)), Some(Cut(name, 64)))
  }

  lemma GetByLookup(payload: string, key: string, size: nat, value: string)
    requires '\0' !in payload && size > 0 && QUOTE !in key && COLON !in key
    requires Lookup(Pieces(payload), key) == Some(value)
    ensures GetStr(payload, key, size) == Some(Cut(value, size))
  {
    GetStrIsLookup(payload, key, size);
  }

  lemma GetNothing(payload: string, key: string, size: nat)
    requires '\0' !in payload && size > 0 && QUOTE !in key && COLON !in key
    requires Lookup(Pieces(payload), key) == None
    ensures GetStr(payload, key, size) == None
  {
    GetStrIsLookup(payload, key, size);
  }

  lemma FieldsRecovered(cmd: string, target: string, name: string, rest: string)
    requires KnownCommand(cmd) && QUOTE !in target && QUOTE !in name
    requires '\0' !in Head(cmd, target, name) + rest
    ensures Fields(Head(cmd, target, name) + rest) == Kept(cmd, target, name)
  {
    TextInPieces(cmd, target, name, rest);
    CommandsAreNotKeys(cmd);
    CmdField(Head(cmd, target, name) + rest, cmd, target, name, Pieces(rest));
    TargetField(Head(cmd, target, name) + rest, cmd, target, name, Pieces(rest));
    NameField(Head(cmd, target, name) + rest, cmd, target, name, Pieces(rest));
  }

  lemma CmdField(p: string, cmd: string, target: string, name: string, more: seq<string>)
    requires KnownCommand(cmd) && '\0' !in p && more != []
    requires Pieces(p) == HeadPieces(cmd, target, name) + more
    ensures GetStr(p, "cmd", 32) == Some(Cut(cmd, 32))
  {
    HeadLookups(cmd, target, name, more);
    GetByLookup(p, "cmd", 32, cmd);
  }

  lemma TargetField(p: string, cmd: string, target: string, name: string, more: seq<string>)
    requires KnownCommand(cmd) && '\0' !in p && more != []
    requires Pieces(p) == HeadPieces(cmd, target, name) + more
    ensures GetStr(p, "target", 32) == Some(Cut(target, 32))
  {
    HeadLookups(cmd, target, name, more);
    GetByLookup(p, "target", 32, target);
  }

  lemma NameField(p: string, cmd: string, target: string, name: string, more: seq<string>)
    requires KnownCommand(cmd) && '\0' !in p && more != []
    requires Pieces(p) == HeadPieces(cmd, target, name) + more
    ensures GetStr(p, "name", 64) == Some(Cut(name, 64))
  {
    HeadLookups(cmd, target, name, more);
    GetByLookup(p, "name", 64, name);
  }

  lemma NameLost(cmd: string, target: string, name: string, p: string)
    requires KnownCommand(cmd) && QUOTE !in target && QUOTE !in name
    requires '\0' !in p && p <= Head(cmd, target, name) && |p| < |Head(cmd, target, name)|
    ensures GetStr(p, "name", 64) == None
  {
    CommandsAreNotKeys(cmd);
    var head := HeadPieces(cmd, target, name);
    HeadInPieces(cmd, target, name);
    JoinAppend(head, [""]);
    var j, x := CutPieces(head + [""], p);
    var q := head[..j] + [x];
    assert (head + [""])[..j] == head[..j];
    assert QuoteFree(head);
    PiecesOfJoin(q);
    NameMissing(cmd, target, name, j, x);
    GetStrIsLookup(p, "name", 64);
  }

  predicate NulFree(argv: seq<string>) {
    forall i :: 0 <= i < |argv| ==> '\0' !in argv[i]
  }

  /** The request the server should see for these arguments. */
  function Expected(cmd: string, target: string, name: string): Request
    requires KnownCommand(cmd)
  {
    if |Head(cmd, target, name)| <= 511 && target == "room"
    then OnRoom(CommandOf(cmd).value, Cut(name, 64))
    else BadRequest
  }

  lemma TextRecovered(cmd: string, target: string, name: string, rest: string)
    requires KnownCommand(cmd) && QUOTE !in target && QUOTE !in name
    requires '\0' !in Head(cmd, target, name) + rest
    ensures var p := Cut(Head(cmd, target, name) + rest, PAYLOAD_SIZE);
            Fields(p) == Kept(cmd, target, name) <==> |Head(cmd, target, name)| < PAYLOAD_SIZE
    ensures |Head(cmd, target, name)| >= PAYLOAD_SIZE ==>
              Fields(Cut(Head(cmd, target, name) + rest, PAYLOAD_SIZE)).2 == None
  {
    var head := Head(cmd, target, name);
    var p := Cut(head + rest, PAYLOAD_SIZE);
    if |head| < PAYLOAD_SIZE {
      assert p == head + p[|head|..];
      FieldsRecovered(cmd, target, name, p[|head|..]);
    } else {
      assert p == head[..PAYLOAD_SIZE - 1];
      NameLost(cmd, target, name, p);
    }
  }

  lemma FieldText(lead: string, key: string, value: string)
    requires '\0' !in lead && '\0' !in key && '\0' !in value
    ensures '\0' !in Field(lead, key, value) && lead + Pattern(key) <= Field(lead, key, value)
  {
  }

  lemma TextShape(argv: seq<string>)
    requires Build(argv).Payload? && NulFree(argv)
    ensures var full := Head(argv[1], argv[2], argv[3]) + TextTail(argv);
            '\0' !in full && "{" + Pattern("cmd") <= full
  {
    FieldText("{", "cmd", argv[1]);
    FieldText(",", "target", argv[2]);
    FieldText(",", "name", argv[3]);
    if CommandOf(argv[1]) == Some(Edit) {
      FieldText(",", "key", argv[5]);
      FieldText(",", "val", argv[6]);
    }
  }

  /**
   Whatever follows the name, the server recovers command, target and name if and only if
   the text up to the name's closing quote fits the client's buffer; otherwise the request
   is refused. Key and value of `edit` may hold anything, quotes included.
   */
  lemma CliRoundTrip(argv: seq<string>)
    requires Build(argv).Payload? && NulFree(argv) && QUOTE !in argv[2] && QUOTE !in argv[3]
    ensures IsCli(Build(argv).text)
    ensures Fields(Build(argv).text) == Kept(argv[1], argv[2], argv[3])
            <==> |Head(argv[1], argv[2], argv[3])| <= 511
    ensures ParseCli(Build(argv).text) == Expected(argv[1], argv[2], argv[3])
  {
    CommandsAreNotKeys(argv[1]);
    TextShape(argv);
    StartsWithCmd(Build(argv).text);
    TextRecovered(argv[1], argv[2], argv[3], TextTail(argv));
  }

  // ----- Legacy requests -----

  /** A request that begins with id and operation; anything may follow. */
  function LegacyHead(id: string, op: string): string {
    Field("{", "req_id", id) + Field(",", "op", op)
  }

  function LegacyPieces(id: string, op: string): seq<string> {
    ["{", "req_id", ":", id, ",", "op", ":", op]
  }

  lemma LegacyInPieces(id: string, op: string, rest: string)
    requires QUOTE !in id && QUOTE !in op
    ensures Pieces(LegacyHead(id, op) + rest) == LegacyPieces(id, op) + Pieces(rest)
  {
    var head := LegacyPieces(id, op);
    LegacyHeadInPieces(id, op);
    JoinAppend(head, Pieces(rest));
    PiecesOfJoin(head + Pieces(rest));
  }

  lemma LegacyHeadInPieces(id: string, op: string)
    ensures LegacyHead(id, op) == Join(LegacyPieces(id, op)) + [QUOTE]
  {
    var a, b := ["{", "req_id", ":", id], [",", "op", ":", op];
    FieldInPieces("{", "req_id", id);
    FieldInPieces(",", "op", op);
    JoinAppend(a, b);
    assert LegacyPieces(id, op) == a + b;
  }

  lemma LegacyLookups(id: string, op: string, more: seq<string>)
    requires more != []
    ensures Lookup(LegacyPieces(id, op) + more, "req_id") == Some(id)
    ensures Lookup(LegacyPieces(id, op) + more, "op") == Some(op)
  {
    var ts := LegacyPieces(id, op) + more;
    assert ts[1..1] == [];
    LookupAt(ts, "req_id", 1, 2);
    assert ts[1..3] == ["req_id", ":"];
    if id == "op" {
      LookupAt(ts, "op", 3, 6);
    } else {
      assert ts[1..5] == ["req_id", ":", id, ","];
      LookupAt(ts, "op", 5, 6);
    }
  }

  /** The key is nowhere between two quotes. */
  predicate Absent(ts: seq<string>, key: string) {
    forall i :: 1 <= i < |ts| - 1 ==> ts[i] != key
  }

  lemma {:induction false} LocateIff(ts: seq<string>, key: string)
    ensures Locate(ts, key) == [] <==> Absent(ts, key)
  {
    if |ts| >= 3 {
      LocateIff(ts[1..], key);
      if Absent(ts, key) {
        assert ts[1] != key;
        assert forall i :: 1 <= i < |ts[1..]| - 1 ==> ts[1..][i] == ts[i + 1];
      } else if ts[1] != key {
        var i :| 1 <= i < |ts| - 1 && ts[i] == key;
        assert ts[1..][i - 1] == key;
      }
    }
  }

  /** The key is between two quotes of this text, the first of which may be the one before it. */
  predicate Mentions(rest: string, key: string) {
    exists i :: 0 <= i < |Pieces(rest)| - 1 && Pieces(rest)[i] == key
  }

  lemma LegacyHasCmd(id: string, op: string, rest: string)
    ensures Absent(LegacyPieces(id, op) + Pieces(rest), "cmd") <==> id != "cmd" && op != "cmd" && !Mentions(rest, "cmd")
  {
    var head, more := LegacyPieces(id, op), Pieces(rest);
    var ts := head + more;
    assert ts[3] == id && ts[7] == op;
    assert forall i :: 0 <= i < |more| ==> ts[8 + i] == more[i];
    if i :| 0 <= i < |more| - 1 && more[i] == "cmd" {
      assert ts[8 + i] == "cmd";
    } else if id != "cmd" && op != "cmd" {
      assert forall i :: 8 <= i < |ts| ==> ts[i] == more[i - 8];
    }
  }

  /**
   A request that begins with id and operation, whatever follows them, reaches the legacy
   handler unless one of them is the text `cmd` or the rest quotes it; it is filed under its
   id cut to 63 and fails exactly for the op FAIL.
   */
  lemma LegacyRoundTrip(id: string, op: string, rest: string)
    requires QUOTE !in id && QUOTE !in op && '\0' !in LegacyHead(id, op) + rest
    ensures IsCli(LegacyHead(id, op) + rest) <==> id == "cmd" || op == "cmd" || Mentions(rest, "cmd")
    ensures EffectiveId(LegacyHead(id, op) + rest) == Cut(id, 64)
    ensures Verdict(LegacyHead(id, op) + rest) <==> op != "FAIL"
  {
    LegacyInPieces(id, op, rest);
    LegacyDispatch(LegacyHead(id, op) + rest, id, op, rest);
    LegacyIdField(LegacyHead(id, op) + rest, id, op, rest);
    LegacyOpField(LegacyHead(id, op) + rest, id, op, rest);
  }

  lemma DispatchByPieces(p: string)
    requires '\0' !in p
    ensures IsCli(p) <==> Locate(Pieces(p), "cmd") != []
  {
    FindIsLocate(Pieces(p), "cmd");
  }

  lemma LegacyDispatch(p: string, id: string, op: string, rest: string)
    requires '\0' !in p && Pieces(p) == LegacyPieces(id, op) + Pieces(rest)
    ensures IsCli(p) <==> id == "cmd" || op == "cmd" || Mentions(rest, "cmd")
  {
    LegacyHasCmd(id, op, rest);
    LocateIff(Pieces(p), "cmd");
    DispatchByPieces(p);
  }

  lemma LegacyIdField(p: string, id: string, op: string, rest: string)
    requires '\0' !in p && Pieces(p) == LegacyPieces(id, op) + Pieces(rest)
    ensures EffectiveId(p) == Cut(id, 64)
  {
    LegacyLookups(id, op, Pieces(rest));
    GetByLookup(p, "req_id", 64, id);
  }

  lemma LegacyOpField(p: string, id: string, op: string, rest: string)
    requires '\0' !in p && Pieces(p) == LegacyPieces(id, op) + Pieces(rest)
    ensures Verdict(p) <==> op != "FAIL"
  {
    LegacyLookups(id, op, Pieces(rest));
    GetByLookup(p, "op", 32, op);
  }

  /** The text has this key between quotes somewhere. */
  ghost predicate Quotes(text: string, key: string) {
    exists i :: 0 <= i <= |text| && Pattern(key) <= text[i..]
  }

  /** For every payload: what is not quoted in it counts as missing, and a quoted cmd decides who handles it. */
  lemma MissingFields(payload: string)
    ensures IsCli(payload) <==> Quotes(CStr(payload), "cmd")
    ensures !Quotes(CStr(payload), "req_id") ==> EffectiveId(payload) == "noid"
    ensures !Quotes(CStr(payload), "op") ==> Verdict(payload)
  {
    var text := CStr(payload);
    FindIsFirst(text, Pattern("cmd"));
    FindIsFirst(text, Pattern("req_id"));
    FindIsFirst(text, Pattern("op"));
  }

  // ----- Room requests of the location generator, whose id is a number without quotes -----

  /** Up to the closing quote of the key that follows the number; the rest may be cut anywhere. */
  function RoomHead(kind: string, number: string, key: string): string {
    Field("{", "type", kind) + NumberField(number, key)
  }

  function NumberField(number: string, key: string): string {
    "," + Pattern("req_id") + ":" + number + "," + Pattern(key)
  }

  /** room.delete and room.show. */
  function RoomText(kind: string, number: string, room: string): string {
    RoomHead(kind, number, "id") + RoomTail(room)
  }

  function RoomTail(room: string): string {
    ":" + Pattern(room) + "}"
  }

  function RoomPieces(kind: string, number: string, key: string): seq<string> {
    ["{", "type", ":", kind, ",", "req_id", ":" + number + ",", key]
  }

  lemma RoomHeadInPieces(kind: string, number: string, key: string)
    ensures RoomHead(kind, number, key) == Join(RoomPieces(kind, number, key)) + [QUOTE]
  {
    var a, b := ["{", "type", ":", kind], [",", "req_id", ":" + number + ",", key];
    FieldInPieces("{", "type", kind);
    NumberInPieces(number, key);
    JoinAppend(a, b);
    assert (Join(a) + [QUOTE]) + (Join(b) + [QUOTE]) == (Join(a) + [QUOTE] + Join(b)) + [QUOTE];
    assert a + b == RoomPieces(kind, number, key);
  }

  lemma NumberInPieces(number: string, key: string)
    ensures NumberField(number, key) == Join([",", "req_id", ":" + number + ",", key]) + [QUOTE]
  {
    var n := ":" + number + ",";
    var ts := [",", "req_id", n, key];
    assert ts[1..] == ["req_id", n, key] && ts[1..][1..] == [n, key] && ts[1..][1..][1..] == [key];
    assert Join([n, key]) == n + [QUOTE] + key;
    assert Join(["req_id", n, key]) == "req_id" + [QUOTE] + Join([n, key]);
  }

  lemma RoomInPieces(kind: string, number: string, key: string, rest: string)
    requires QUOTE !in kind && QUOTE !in number && QUOTE !in key
    ensures Pieces(RoomHead(kind, number, key) + rest) == RoomPieces(kind, number, key) + Pieces(rest)
  {
    var head := RoomPieces(kind, number, key);
    RoomHeadInPieces(kind, number, key);
    JoinAppend(head, Pieces(rest));
    PiecesOfJoin(head + Pieces(rest));
  }

  /**
   The server looks for a quoted id, so a request with a number is filed under the next key
   instead, whatever the number and whatever follows.
   */
  lemma NumericId(kind: string, number: string, key: string, rest: string)
    requires QUOTE !in kind && QUOTE !in number && QUOTE !in key && kind != "req_id"
    requires '\0' !in RoomHead(kind, number, key) + rest
    ensures EffectiveId(RoomHead(kind, number, key) + rest) == Cut(key, 64)
  {
    var ts := RoomPieces(kind, number, key) + Pieces(rest);
    RoomInPieces(kind, number, key, rest);
    assert ts[1..5] == ["type", ":", kind, ","];
    assert ts[6][0] == COLON;
    LookupAt(ts, "req_id", 5, 6);
    GetByLookup(RoomHead(kind, number, key) + rest, "req_id", 64, key);
  }

  /** A cut after the head leaves at most three pieces, the name whole if it is followed by a quote. */
  predicate CutTailPieces(room: string, more: seq<string>) {
    && 1 <= |more| <= 3 && more[0] != "cmd" && more[0] != "op"
    && (|more| == 3 ==> more[1] == room)
  }

  lemma CutTail(room: string, rest: string)
    requires QUOTE !in room && rest <= RoomTail(room)
    ensures CutTailPieces(room, Pieces(rest))
    ensures |Pieces(rest)| == 3 <==> |rest| >= |room| + 3
  {
    assert RoomTail(room) == ":" + [QUOTE] + (room + [QUOTE] + "}");
    if |rest| <= 1 {
      assert QUOTE !in rest;
      PiecesStep(rest, "");
    } else {
      var later := rest[2..];
      assert rest == ":" + [QUOTE] + later;
      PiecesStep(":", later);
      assert later <= room + [QUOTE] + "}";
      CutName(room, later);
    }
  }

  lemma CutName(room: string, later: string)
    requires QUOTE !in room && later <= room + [QUOTE] + "}"
    ensures if |later| <= |room| then Pieces(later) == [later]
            else |Pieces(later)| == 2 && Pieces(later)[0] == room
  {
    if |later| <= |room| {
      assert later <= room;
      PiecesStep(later, "");
    } else {
      var end := later[|room| + 1..];
      assert later == room + [QUOTE] + end && end <= "}";
      PiecesStep(room, end);
      PiecesStep(end, "");
    }
  }

  lemma RoomKeys(kind: string, number: string, room: string, more: seq<string>, key: string)
    requires key == "cmd" || key == "op"
    requires (kind == "room.delete" || kind == "room.show") && CutTailPieces(room, more)
    ensures var ts := RoomPieces(kind, number, "id") + more;
            Locate(ts, key) == if |more| == 3 && room == key then more[1..] else []
  {
    var ts := RoomPieces(kind, number, "id") + more;
    assert ts[6][0] == COLON && ts[3][0] == 'r';
    if |more| == 3 && room == key {
      assert ts[8] == more[0] && ts[9] == key;
      assert key !in ts[1..9];
      LocateAt(ts, 9, key);
      assert ts[9..] == more[1..];
    } else {
      LocateNone(ts, key);
    }
  }

  const ROOM_SIZE: nat := 256

  /** What the client's buffer leaves of a request: the head fits, so only the tail is cut. */
  lemma CutRoom(kind: string, number: string, room: string) returns (rest: string)
    requires (kind == "room.delete" || kind == "room.show") && |number| <= 20
    ensures Cut(RoomText(kind, number, room), ROOM_SIZE) == RoomHead(kind, number, "id") + rest
    ensures rest <= RoomTail(room) && (|room| <= 64 ==> rest == RoomTail(room))
  {
    var head, tail := RoomHead(kind, number, "id"), RoomTail(room);
    assert |head| <= 64;
    var n := if |tail| <= 255 - |head| then |tail| else 255 - |head|;
    rest := tail[..n];
    assert Cut(head + tail, ROOM_SIZE) == head + rest;
  }

  /**
   A delete or show as the client sends it, cut to its buffer, is a legacy request that
   succeeds, and all of them share one id; only a room called cmd sends it elsewhere.
   */
  lemma RoomRequest(kind: string, number: string, room: string)
    requires (kind == "room.delete" || kind == "room.show") && |number| <= 20
    requires QUOTE !in number && QUOTE !in room && '\0' !in RoomText(kind, number, room)
    ensures var p := Cut(RoomText(kind, number, room), ROOM_SIZE);
            (IsCli(p) <==> room == "cmd") && EffectiveId(p) == "id" && Verdict(p)
  {
    var rest := CutRoom(kind, number, room);
    var p := Cut(RoomText(kind, number, room), ROOM_SIZE);
    NumericId(kind, number, "id", rest);
    RoomInPieces(kind, number, "id", rest);
    CutTail(room, rest);
    RoomDispatch(p, kind, number, room, Pieces(rest));
    RoomVerdict(p, kind, number, room, Pieces(rest));
  }

  lemma RoomDispatch(text: string, kind: string, number: string, room: string, more: seq<string>)
    requires (kind == "room.delete" || kind == "room.show") && CutTailPieces(room, more)
    requires '\0' !in text && Pieces(text) == RoomPieces(kind, number, "id") + more
    ensures IsCli(text) <==> |more| == 3 && room == "cmd"
  {
    RoomKeys(kind, number, room, more, "cmd");
    DispatchByPieces(text);
  }

  lemma NoOperationSucceeds(p: string)
    requires '\0' !in p && Lookup(Pieces(p), "op") == None
    ensures Verdict(p)
  {
    GetNothing(p, "op", 32);
  }

  lemma NoOperation(kind: string, number: string, room: string, more: seq<string>)
    requires (kind == "room.delete" || kind == "room.show") && CutTailPieces(room, more)
    ensures Lookup(RoomPieces(kind, number, "id") + more, "op") == None
  {
    RoomKeys(kind, number, room, more, "op");
  }

  lemma RoomVerdict(text: string, kind: string, number: string, room: string, more: seq<string>)
    requires (kind == "room.delete" || kind == "room.show") && CutTailPieces(room, more)
    requires '\0' !in text && Pieces(text) == RoomPieces(kind, number, "id") + more
    ensures Verdict(text)
  {
    NoOperation(kind, number, room, more);
    NoOperationSucceeds(text);
  }

  /**
   The extra fields of `edit`, which the server extracts and then ignores. A target equal to
   `key` or `val`, or a name equal to `val`, makes the scan return a neighbouring value.
   */
  lemma EditFields(target: string, name: string, key: string, val: string)
    requires QUOTE !in target && QUOTE !in name && QUOTE !in key && QUOTE !in val
    requires '\0' !in Head("edit", target, name) + EditTail(key, val)
    ensures var p := Head("edit", target, name) + EditTail(key, val);
            && GetStr(p, "key", 64) == Some(Cut(if target == "key" then name else key, 64))
            && GetStr(p, "val", 128) == Some(Cut(if target == "val" then name else if name == "val" then key else val, 128))
  {
    var p := Head("edit", target, name) + EditTail(key, val);
    TextInPieces("edit", target, name, EditTail(key, val));
    TailInPieces(key, val);
    EditKey(p, target, name, key, val);
    EditVal(p, target, name, key, val);
  }

  lemma EditKey(p: string, target: string, name: string, key: string, val: string)
    requires '\0' !in p && Pieces(p) == HeadPieces("edit", target, name) + TailPieces(key, val)
    ensures GetStr(p, "key", 64) == Some(Cut(if target == "key" then name else key, 64))
  {
    KeyLookup(target, name, key, val);
    GetByLookup(p, "key", 64, if target == "key" then name else key);
  }

  lemma EditVal(p: string, target: string, name: string, key: string, val: string)
    requires '\0' !in p && Pieces(p) == HeadPieces("edit", target, name) + TailPieces(key, val)
    ensures GetStr(p, "val", 128) == Some(Cut(if target == "val" then name else if name == "val" then key else val, 128))
  {
    ValLookup(target, name, key, val);
    GetByLookup(p, "val", 128, if target == "val" then name else if name == "val" then key else val);
  }

  function TailPieces(key: string, val: string): seq<string> {
    [",", "key", ":", key, ",", "val", ":", val, "}"]
  }

  lemma TailInPieces(key: string, val: string)
    requires QUOTE !in key && QUOTE !in val
    ensures Pieces(EditTail(key, val)) == TailPieces(key, val)
  {
    var a, b, c := [",", "key", ":", key], [",", "val", ":", val], ["}"];
    FieldInPieces(",", "key", key);
    FieldInPieces(",", "val", val);
    JoinAppend(a, b);
    JoinAppend(a + b, c);
    assert TailPieces(key, val) == (a + b) + c;
    assert EditTail(key, val) == Join(a) + [QUOTE] + Join(b) + [QUOTE] + "}";
    PiecesOfJoin((a + b) + c);
  }

  lemma KeyLookup(target: string, name: string, key: string, val: string)
    ensures Lookup(HeadPieces("edit", target, name) + TailPieces(key, val), "key") ==
            Some(if target == "key" then name else key)
  {
    var ts := HeadPieces("edit", target, name) + TailPieces(key, val);
    var before := ["cmd", ":", "edit", ",", "target", ":"];
    assert ts[1..7] == before && "key" !in before;
    if target == "key" {
      LookupAt(ts, "key", 7, 10);
    } else {
      var between := [target, ",", "name", ":"];
      assert ts[1..11] == before + between && "key" !in between;
      if name == "key" {
        LookupAt(ts, "key", 11, 14);
      } else {
        assert ts[1..13] == before + between + [name, ","];
        LookupAt(ts, "key", 13, 14);
      }
    }
  }

  lemma ValLookup(target: string, name: string, key: string, val: string)
    ensures Lookup(HeadPieces("edit", target, name) + TailPieces(key, val), "val") ==
            Some(if target == "val" then name else if name == "val" then key else val)
  {
    var ts := HeadPieces("edit", target, name) + TailPieces(key, val);
    var before := ["cmd", ":", "edit", ",", "target", ":"];
    assert ts[1..7] == before && "val" !in before;
    if target == "val" {
      LookupAt(ts, "val", 7, 10);
    } else if name == "val" {
      assert ts[1..11] == before + [target, ",", "name", ":"];
      LookupAt(ts, "val", 11, 14);
    } else {
      LateValLookup(ts, target, name, key);
    }
  }

  lemma LateValLookup(ts: seq<string>, target: string, name: string, key: string)
    requires |ts| == 21 && target != "val" && name != "val"
    requires ts[1] == "cmd" && ts[2] == ":" && ts[3] == "edit" && ts[4] == "," && ts[5] == "target" && ts[6] == ":"
    requires ts[7] == target && ts[8] == "," && ts[9] == "name" && ts[10] == ":" && ts[11] == name && ts[12] == ","
    requires ts[13] == "key" && ts[14] == ":" && ts[15] == key && ts[16] == "," && ts[17] == "val" && ts[18] == ":"
    ensures Lookup(ts, "val") == Some(ts[19])
  {
    assert forall i :: 1 <= i < 15 ==> ts[i] != "val";
    assert COLON !in "val" && COLON !in ",";
    if key == "val" {
      assert "val" !in ts[1..15];
      LookupAt(ts, "val", 15, 18);
    } else {
      assert forall i :: 1 <= i < 17 ==> ts[i] != "val";
      assert "val" !in ts[1..17];
      LookupAt(ts, "val", 17, 18);
    }
  }
}
