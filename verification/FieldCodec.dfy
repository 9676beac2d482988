/**
 The request text and the quote-scanning field lookup the server applies to it.
 `GetStr` works on characters; `Lookup` says the same about the pieces of text between
 quotes, for every payload, and the client's encoder is then checked against the latter.
 */
module FieldCodec {

  datatype Option<+T> = None | Some(value: T)

  const QUOTE: char := '\"'
  const COLON: char := ':'

  // ----- C string helpers -----

  /** The text a C function sees: everything before the first NUL. */
  function CStr(s: string): (r: string)
    ensures '\0' !in r && r <= s
    ensures '\0' !in s ==> r == s
    ensures '\0' in s ==> |r| < |s| && s[|r|] == '\0'
  {
    if s == [] || s[0] == '\0' then [] else [s[0]] + CStr(s[1..])
  }

  /** strstr: offset of the first occurrence, or -1. */
  function Find(s: string, pat: string): (r: int)
    ensures -1 <= r <= |s|
  {
    if pat <= s then 0
    else if s == [] then -1
    else
      var r := Find(s[1..], pat);
      if r < 0 then -1 else r + 1
  }

  lemma {:induction false} FindIsFirst(s: string, pat: string)
    ensures var r := Find(s, pat);
            && (r >= 0 ==> pat <= s[r..])
            && forall i :: 0 <= i <= |s| && (r < 0 || i < r) ==> !(pat <= s[i..])
  {
    assert s[0..] == s;
    if !(pat <= s) && s != [] {
      FindIsFirst(s[1..], pat);
      assert forall i :: 0 < i <= |s| ==> s[i..] == s[1..][i - 1..];
    }
  }

  /** strchr: offset of the first occurrence, or -1. */
  function IndexOf(s: string, c: char): (r: int)
    ensures r >= 0 ==> r < |s| && s[r] == c && c !in s[..r]
    ensures r < 0 ==> r == -1 && c !in s
  {
    if s == [] then -1
    else if s[0] == c then 0
    else
      var r := IndexOf(s[1..], c);
      if r < 0 then -1 else assert s[..r + 1] == [s[0]] + s[1..][..r]; r + 1
  }

  /** A copy into a buffer of `size` characters keeps at most `size - 1` of them. */
  function Cut(s: string, size: nat): (r: string)
    requires size > 0
    ensures r <= s && |r| < size && (|s| < size ==> r == s) && (|s| >= size ==> |r| == size - 1)
  {
    if |s| >= size then s[..size - 1] else s
  }

  function Pattern(key: string): string {
    [QUOTE] + key + [QUOTE]
  }

  /** The quoted text after the first quote. */
  function Quoted(text: string): Option<string> {
    var q1 := IndexOf(text, QUOTE);
    if q1 < 0 then None
    else
      var rest := text[q1 + 1..];
      var q2 := IndexOf(rest, QUOTE);
      if q2 < 0 then None else Some(rest[..q2])
  }

  /** What the scan finds after the key. */
  function Scan(text: string): Option<string> {
    var colon := IndexOf(text, COLON);
    if colon < 0 then None else Quoted(text[colon..])
  }

  /** json_get_str: the quoted text after the first colon after the first quoted key. */
  function GetStr(payload: string, key: string, size: nat): (r: Option<string>)
    requires size > 0
    ensures r.Some? ==> |r.value| < size
  {
    var text := CStr(payload);
    var k := Find(text, Pattern(key));
    if k < 0 then None
    else
      match Scan(text[k..])
      case None => None
      case Some(v) => Some(Cut(v, size))
  }

  // ----- The same lookup on the pieces between quotes -----

  /** The pieces of text between quotes; one more piece than quotes. */
  function Pieces(s: string): (ts: seq<string>)
    ensures ts != [] && Join(ts) == s && QuoteFree(ts)
    decreases |s|
  {
    var q := IndexOf(s, QUOTE);
    if q < 0 then [s]
    else
      assert s == s[..q] + [QUOTE] + s[q + 1..];
      [s[..q]] + Pieces(s[q + 1..])
  }

  predicate QuoteFree(ts: seq<string>) {
    forall i :: 0 <= i < |ts| ==> QUOTE !in ts[i]
  }

  function Join(ts: seq<string>): string
    requires ts != []
  {
    if |ts| == 1 then ts[0] else ts[0] + [QUOTE] + Join(ts[1..])
  }

  /** The pieces from the first one equal to `key` with a quote on both sides. */
  function Locate(ts: seq<string>, key: string): seq<string> {
    if |ts| < 3 then []
    else if ts[1] == key then ts[1..]
    else Locate(ts[1..], key)
  }

  /** The piece after the first one holding a colon, if a quote closes it. */
  function AfterColon(ts: seq<string>): Option<string> {
    if |ts| < 3 then None
    else if COLON in ts[0] then Some(ts[1])
    else AfterColon(ts[1..])
  }

  function Lookup(ts: seq<string>, key: string): Option<string> {
    AfterColon(Locate(ts, key))
  }

  lemma IndexOfSkip(a: string, b: string, c: char)
    requires c !in a
    ensures IndexOf(a + b, c) == if IndexOf(b, c) < 0 then -1 else |a| + IndexOf(b, c)
  {
    var r, s := IndexOf(a + b, c), IndexOf(b, c);
    if s >= 0 {
      assert (a + b)[|a| + s] == c;
      assert c !in (a + b)[..|a| + s] by {
        assert (a + b)[..|a| + s] == a + b[..s];
      }
    }
  }

  lemma {:induction false} FindSkip(a: string, b: string, pat: string)
    requires pat != [] && pat[0] !in a
    ensures Find(a + b, pat) == if Find(b, pat) < 0 then -1 else |a| + Find(b, pat)
  {
    if a == [] {
      assert a + b == b;
    } else {
      FindSkip(a[1..], b, pat);
      assert (a + b)[1..] == a[1..] + b;
      assert (a + b)[0] != pat[0];
    }
  }

  /** A quoted key matches right at a quote only as a whole piece. */
  lemma MatchIsPiece(t: string, rest: string, key: string)
    requires QUOTE !in t && QUOTE !in key
    ensures Pattern(key) <= [QUOTE] + t + [QUOTE] + rest <==> t == key
  {
    var s, pat := [QUOTE] + t + [QUOTE] + rest, Pattern(key);
    if pat <= s {
      FirstQuote(t, rest);
      FirstQuote(key, s[|pat|..]);
      assert s[1..] == t + [QUOTE] + rest;
      assert s == pat + s[|pat|..];
      assert s[1..] == key + [QUOTE] + s[|pat|..];
      assert key == s[1..][..|key|] == t;
    }
    assert t == key ==> s == pat + rest;
  }

  lemma NoMatchInOnePiece(t: string, key: string)
    requires QUOTE !in t
    ensures Find(t, Pattern(key)) < 0 && Find([QUOTE] + t, Pattern(key)) < 0
  {
    var pat, s := Pattern(key), [QUOTE] + t;
    FindSkip(t, "", pat);
    assert t + "" == t;
    assert Find("", pat) == -1;
    assert s[1..] == t;
    assert |pat| > 1 && pat[|pat| - 1] == QUOTE;
    assert forall i :: 0 < i < |s| ==> s[i] == t[i - 1];
  }

  /** What a search for a quoted key returns: the first whole piece equal to it. */
  ghost predicate Found(text: string, ts: seq<string>, key: string)
  {
    var k, at := Find(text, Pattern(key)), Locate(ts, key);
    if at == [] then k < 0
    else k >= 0 && |at| >= 2 && QuoteFree(at) && text[k..] == [QUOTE] + Join(at)
  }

  lemma FindLater(t: string, later: string, pat: string)
    requires pat != [] && pat[0] == QUOTE && QUOTE !in t && !(pat <= [QUOTE] + later)
    ensures var k := Find(later, pat);
            && Find(t + ([QUOTE] + later), pat) == (if k < 0 then -1 else |t| + 1 + k)
            && (k >= 0 ==> (t + ([QUOTE] + later))[|t| + 1 + k..] == later[k..])
  {
    var tail := [QUOTE] + later;
    assert tail[1..] == later;
    FindSkip(t, tail, pat);
  }

  lemma {:induction false} FindIsLocate(ts: seq<string>, key: string)
    requires ts != [] && QuoteFree(ts) && QUOTE !in key
    ensures Found(Join(ts), ts, key)
    decreases |ts|
  {
    if |ts| == 1 {
      NoMatchInOnePiece(ts[0], key);
    } else {
      var later := Join(ts[1..]);
      assert Join(ts) == ts[0] + ([QUOTE] + later);
      FindSkip(ts[0], [QUOTE] + later, Pattern(key));
      if |ts| == 2 {
        NoMatchInOnePiece(ts[1], key);
      } else {
        assert [QUOTE] + later == [QUOTE] + ts[1] + [QUOTE] + Join(ts[1..][1..]);
        MatchIsPiece(ts[1], Join(ts[1..][1..]), key);
        FindIsLocate(ts[1..], key);
        if ts[1] != key {
          FindLater(ts[0], later, Pattern(key));
        }
      }
    }
  }

  lemma ScanSkip(a: string, b: string)
    requires COLON !in a
    ensures Scan(a + b) == Scan(b)
  {
    IndexOfSkip(a, b, COLON);
    var colon := IndexOf(b, COLON);
    if colon >= 0 {
      assert (a + b)[|a| + colon..] == b[colon..];
    }
  }

  lemma FirstQuote(t: string, rest: string)
    requires QUOTE !in t
    ensures IndexOf(t, QUOTE) < 0
    ensures IndexOf(t + [QUOTE] + rest, QUOTE) == |t|
  {
    IndexOfSkip(t, [QUOTE] + rest, QUOTE);
    assert t + [QUOTE] + rest == t + ([QUOTE] + rest);
  }

  lemma QuotedSkip(t: string, later: string)
    requires QUOTE !in t
    ensures Quoted(t) == None
    ensures Quoted(t + [QUOTE] + later) ==
            if IndexOf(later, QUOTE) < 0 then None else Some(later[..IndexOf(later, QUOTE)])
  {
    FirstQuote(t, later);
    assert (t + [QUOTE] + later)[|t| + 1..] == later;
  }

  lemma ScanAtColon(t: string, later: string)
    requires QUOTE !in t && COLON in t
    ensures Scan(t) == None
    ensures Scan(t + [QUOTE] + later) ==
            if IndexOf(later, QUOTE) < 0 then None else Some(later[..IndexOf(later, QUOTE)])
  {
    var colon := IndexOf(t, COLON);
    var a, b := t[..colon], t[colon..];
    assert t == a + b && t + [QUOTE] + later == a + (b + [QUOTE] + later);
    assert IndexOf(b, COLON) == 0 && IndexOf(b + [QUOTE] + later, COLON) == 0;
    ScanSkip(a, b);
    ScanSkip(a, b + [QUOTE] + later);
    QuotedSkip(b, later);
  }

  lemma {:induction false} ScanIsAfterColon(ts: seq<string>)
    requires ts != [] && QuoteFree(ts)
    ensures Scan(Join(ts)) == AfterColon(ts)
    decreases |ts|
  {
    if COLON in ts[0] {
      var later := if |ts| == 1 then "" else Join(ts[1..]);
      ScanAtColon(ts[0], later);
      if |ts| == 2 {
        FirstQuote(ts[1], "");
      } else if |ts| > 2 {
        FirstQuote(ts[1], Join(ts[1..][1..]));
        assert later[..|ts[1]|] == ts[1];
      }
    } else if |ts| == 1 {
      assert Scan(ts[0]) == None;
    } else {
      ScanIsAfterColon(ts[1..]);
      ScanSkip(ts[0] + [QUOTE], Join(ts[1..]));
    }
  }

  /** For every payload: the character scan is the lookup on the pieces between quotes. */
  lemma GetStrIsLookup(payload: string, key: string, size: nat)
    requires size > 0 && QUOTE !in key && COLON !in key
    ensures GetStr(payload, key, size) ==
            match Lookup(Pieces(CStr(payload)), key)
            case None => None
            case Some(v) => Some(Cut(v, size))
  {
    var text := CStr(payload);
    var ts := Pieces(text);
    FindIsLocate(ts, key);
    var k, at := Find(text, Pattern(key)), Locate(ts, key);
    if at != [] {
      ScanSkip([QUOTE], Join(at));
      ScanIsAfterColon(at);
      assert Scan(text[k..]) == AfterColon(at);
    }
  }
}
