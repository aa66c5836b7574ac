/** FIX over a byte stream (src/actors/FIXAcceptorActor.cpp): framing of what is received, the
    tag parser, and the messages that are sent. A `char` stands for one byte. */
module Fix {
  const SOH: char := '\U{0001}'

  type TagMap = map<int, string>

  // ----- Searching ----------------------------------------------------------------------------

  /** `find(c, from)`; the length of the string stands for "not found". */
  function FindChar(s: string, c: char, from: nat): (i: nat)
    requires from <= |s|
    ensures from <= i <= |s|
    ensures i < |s| ==> s[i] == c
    ensures forall k :: from <= k < i ==> s[k] != c
    decreases |s| - from
  {
    if from == |s| || s[from] == c then from else FindChar(s, c, from + 1)
  }

  /** The text `10=` stands at position `i`. */
  predicate TrailerAt(s: string, i: nat) {
    i + 3 <= |s| && s[i] == '1' && s[i + 1] == '0' && s[i + 2] == '='
  }

  /** `find("10=")`. */
  function FindTrailer(s: string, from: nat): (i: nat)
    requires from <= |s|
    ensures from <= i <= |s|
    ensures i < |s| ==> TrailerAt(s, i)
    ensures forall k :: from <= k < i ==> !TrailerAt(s, k)
    decreases |s| - from
  {
    if from == |s| || TrailerAt(s, from) then from else FindTrailer(s, from + 1)
  }

  lemma {:induction false} FoundChar(s: string, c: char, from: nat, i: nat)
    requires from <= i < |s| && s[i] == c && forall k :: from <= k < i ==> s[k] != c
    ensures FindChar(s, c, from) == i
  {
  }

  lemma {:induction false} FoundTrailer(s: string, from: nat, i: nat)
    requires from <= i < |s| && TrailerAt(s, i) && forall k :: from <= k < i ==> !TrailerAt(s, k)
    ensures FindTrailer(s, from) == i
  {
  }

  // ----- Framing --------------------------------------------------------------------------------

  /** Length of the first message of the stream, or 0 if it has not arrived in full: everything
      up to the first delimiter behind the first `10=`. */
  function FrameLength(s: string): (n: nat)
    ensures n <= |s|
    ensures n > 0 ==> s[n - 1] == SOH && exists i :: 0 <= i < n && s[i] == '='
  {
    var c := FindTrailer(s, 0);
    if c == |s| then 0
    else
      var e := FindChar(s, SOH, c);
      if e == |s| then 0
      else
        assert s[c + 2] == '=' && e >= c + 2;
        e + 1
  }

  datatype Framing = Framing(messages: seq<string>, rest: string)

  /** All complete messages of the stream, and what is left. */
  function Frames(s: string): Framing
    decreases |s|
  {
    var n := FrameLength(s);
    if n == 0 then Framing([], s)
    else var r := Frames(s[n..]); Framing([s[..n]] + r.messages, r.rest)
  }

  lemma {:induction false} FramesStep(s: string)
    ensures var n := FrameLength(s);
            && (n == 0 ==> Frames(s) == Framing([], s))
            && (n > 0 ==>
                Frames(s).messages == [s[..n]] + Frames(s[n..]).messages && Frames(s).rest == Frames(s[n..]).rest)
            && (n > 0 ==> AllTags(Frames(s).messages) == [Tags(s[..n])] + AllTags(Frames(s[n..]).messages))
  {
    var n := FrameLength(s);
    if n > 0 { assert ([s[..n]] + Frames(s[n..]).messages)[1..] == Frames(s[n..]).messages; }
  }

  lemma {:induction false} FrameStable(a: string, b: string)
    requires FrameLength(a) > 0
    ensures FrameLength(a + b) == FrameLength(a)
  {
    var c := FindTrailer(a, 0);
    assert forall k :: 0 <= k <= c ==> (TrailerAt(a + b, k) <==> TrailerAt(a, k));
    assert FindTrailer(a + b, 0) == c;
    var e := FindChar(a, SOH, c);
    assert forall k :: c <= k <= e ==> (a + b)[k] == a[k];
    assert FindChar(a + b, SOH, c) == e;
  }

  /** Framing does not depend on how the stream was cut: framing what has arrived and later
      framing the leftover with more data is framing everything at once. */
  lemma {:induction false} FramesChunk(a: string, b: string)
    ensures var f, g := Frames(a), Frames(Frames(a).rest + b);
            Frames(a + b) == Framing(f.messages + g.messages, g.rest)
    decreases |a|
  {
    var n := FrameLength(a);
    if n == 0 {
      assert [] + Frames(a + b).messages == Frames(a + b).messages;
    } else {
      FrameStable(a, b);
      assert (a + b)[..n] == a[..n] && (a + b)[n..] == a[n..] + b;
      FramesChunk(a[n..], b);
      var f, g := Frames(a[n..]), Frames(Frames(a[n..]).rest + b);
      assert [a[..n]] + (f.messages + g.messages) == [a[..n]] + f.messages + g.messages;
    }
  }

  /** What is left over contains no complete message. */
  lemma {:induction false} RestIsIncomplete(s: string)
    ensures FrameLength(Frames(s).rest) == 0
    decreases |s|
  {
    if FrameLength(s) == 0 {
    } else {
      RestIsIncomplete(s[FrameLength(s)..]);
    }
  }

  // ----- Tags --------------------------------------------------------------------------------------

  predicate IsDigit(c: char) { '0' <= c <= '9' }

  predicate IsSpace(c: char) { c == ' ' || '\t' <= c <= '\r' }

  function DigitValue(c: char): nat
    requires IsDigit(c)
  {
    (c as int) - ('0' as int)
  }

  function Digits(s: string, acc: nat): nat
    decreases s
  {
    if s == [] || !IsDigit(s[0]) then acc else Digits(s[1..], 10 * acc + DigitValue(s[0]))
  }

  /** `std::atoi`: white space, a sign, digits up to the first other character. */
  function Atoi(s: string): int
    decreases s
  {
    if s == [] then 0
    else if IsSpace(s[0]) then Atoi(s[1..])
    else if s[0] == '-' then (var magnitude: int := Digits(s[1..], 0); -magnitude)
    else if s[0] == '+' then Digits(s[1..], 0)
    else Digits(s, 0)
  }

  /** The tags of one message from position `pos` on; a repeated tag keeps its last value. */
  function TagsFrom(raw: string, pos: nat, tags: TagMap): TagMap
    decreases |raw| - pos
  {
    if pos >= |raw| then tags
    else
      var eq := FindChar(raw, '=', pos);
      if eq == |raw| then tags
      else
        var soh := FindChar(raw, SOH, eq);
        TagsFrom(raw, soh + 1, tags[Atoi(raw[pos..eq]) := raw[eq + 1..soh]])
  }

  /** One turn of the tag parser. */
  lemma {:induction false} TagsStep(raw: string, pos: nat, tags: TagMap, eq: nat, soh: nat)
    requires pos < |raw| && FindChar(raw, '=', pos) == eq < |raw| && FindChar(raw, SOH, eq) == soh
    ensures TagsFrom(raw, pos, tags) == TagsFrom(raw, soh + 1, tags[Atoi(raw[pos..eq]) := raw[eq + 1..soh]])
  {
    hide FindChar, Atoi;
  }

  lemma {:induction false} TagsEnd(raw: string, pos: nat, tags: TagMap)
    requires pos >= |raw| || FindChar(raw, '=', pos) == |raw|
    ensures TagsFrom(raw, pos, tags) == tags
  {
  }

  function Tags(raw: string): TagMap { TagsFrom(raw, 0, map[]) }

  function AllTags(raws: seq<string>): seq<TagMap> {
    if raws == [] then [] else [Tags(raws[0])] + AllTags(raws[1..])
  }

  lemma {:induction false} AllTagsConcat(a: seq<string>, b: seq<string>)
    ensures AllTags(a + b) == AllTags(a) + AllTags(b)
  {
    if a == [] {
      assert a + b == b;
    } else {
      assert (a + b)[1..] == a[1..] + b;
      AllTagsConcat(a[1..], b);
    }
  }

  lemma {:induction false} TagsGrow(raw: string, pos: nat, tags: TagMap)
    ensures tags.Keys <= TagsFrom(raw, pos, tags).Keys
    decreases |raw| - pos
  {
    if pos >= |raw| {
    } else {
      var eq := FindChar(raw, '=', pos);
      if eq < |raw| {
        var soh := FindChar(raw, SOH, eq);
        TagsGrow(raw, soh + 1, tags[Atoi(raw[pos..eq]) := raw[eq + 1..soh]]);
      }
    }
  }

  /** A complete message always has a tag, so the parser drops none. */
  lemma {:induction false} FramesHaveTags(s: string)
    requires FrameLength(s) > 0
    ensures Tags(s[..FrameLength(s)]) != map[]
  {
    hide FrameLength, Atoi;
    var raw := s[..FrameLength(s)];
    var i :| 0 <= i < FrameLength(s) && s[i] == '=';
    assert raw[i] == '=';
    var eq := FindChar(raw, '=', 0);
    assert eq <= i;
    HasFirstTag(raw, eq);
  }

  lemma {:induction false} HasFirstTag(raw: string, eq: nat)
    requires FindChar(raw, '=', 0) == eq < |raw|
    ensures Atoi(raw[..eq]) in Tags(raw)
  {
    hide FindChar, Atoi;
    var soh := FindChar(raw, SOH, eq);
    assert raw[..eq] == raw[0..eq];
    TagsGrow(raw, soh + 1, map[Atoi(raw[0..eq]) := raw[eq + 1..soh]]);
  }

  // ----- Receiving ------------------------------------------------------------------------------------

  /** The inner loop of the parser: the tags of one raw message. */
  method ParseTags(rawMsg: string) returns (tags: TagMap)
    ensures tags == Tags(rawMsg)
  {
    hide Atoi, TagsFrom, FindChar;
    tags := map[];
    var pos := 0;
    while pos < |rawMsg|
      invariant TagsFrom(rawMsg, pos, tags) == Tags(rawMsg)
      decreases |rawMsg| - pos
    {
      var eqPos := FindChar(rawMsg, '=', pos);
      if eqPos == |rawMsg| {
        TagsEnd(rawMsg, pos, tags);
        return;
      }
      var sohPos := FindChar(rawMsg, SOH, eqPos);
      var tag := Atoi(rawMsg[pos..eqPos]);
      var val := rawMsg[eqPos + 1..sohPos];
      TagsStep(rawMsg, pos, tags, eqPos, sohPos);
      tags := tags[tag := val];
      pos := sohPos + 1;
    }
    TagsEnd(rawMsg, pos, tags);
  }

  /** `parseFIXMessages`: the messages in the buffer, and the buffer they leave. */
  method ParseFIXMessages(data: string) returns (result: seq<TagMap>, remaining: string)
    ensures result == AllTags(Frames(data).messages) && remaining == Frames(data).rest
  {
    hide Tags, Frames, TrailerAt;
    result, remaining := [], data;
    while true
      invariant result + AllTags(Frames(remaining).messages) == AllTags(Frames(data).messages)
      invariant Frames(remaining).rest == Frames(data).rest
      decreases |remaining|
    {
      var checkPos := FindTrailer(remaining, 0);
      if checkPos == |remaining| {
        FramesStep(remaining);
        break;
      }
      var sohAfterCheck := FindChar(remaining, SOH, checkPos);
      if sohAfterCheck == |remaining| {
        FramesStep(remaining);
        break;
      }
      FramesStep(remaining);
      FramesHaveTags(remaining);
      var rawMsg := remaining[..sohAfterCheck + 1];
      var tags := ParseTags(rawMsg);
      remaining := remaining[sohAfterCheck + 1..];
      if tags != map[] {
        result := result + [tags];
      }
    }
  }

  function GetTag(msg: TagMap, tag: int, def: string): string {
    if tag in msg then msg[tag] else def
  }

  predicate IsLogout(msg: TagMap) { GetTag(msg, 35, "") == "5" }

  /** The messages a session handles: up to and including the first logout. */
  function UpToLogout(msgs: seq<TagMap>): seq<TagMap> {
    if msgs == [] then [] else if IsLogout(msgs[0]) then [msgs[0]] else [msgs[0]] + UpToLogout(msgs[1..])
  }

  predicate HasLogout(msgs: seq<TagMap>) { exists m :: m in msgs && IsLogout(m) }

  lemma {:induction false} UpToLogoutFront(msgs: seq<TagMap>)
    requires msgs != []
    ensures UpToLogout(msgs) == if IsLogout(msgs[0]) then [msgs[0]] else [msgs[0]] + UpToLogout(msgs[1..])
    ensures HasLogout(msgs) <==> IsLogout(msgs[0]) || HasLogout(msgs[1..])
  {
    assert forall m :: m in msgs <==> m == msgs[0] || m in msgs[1..];
  }

  lemma {:induction false} UpToLogoutNone()
    ensures UpToLogout([]) == [] && !HasLogout([])
  {
  }

  lemma {:induction false} UpToLogoutConcat(a: seq<TagMap>, b: seq<TagMap>)
    ensures UpToLogout(a + b) == if HasLogout(a) then UpToLogout(a) else a + UpToLogout(b)
    ensures !HasLogout(a) ==> UpToLogout(a) == a
    ensures HasLogout(a + b) <==> HasLogout(a) || HasLogout(b)
  {
    hide UpToLogout, HasLogout, IsLogout;
    if a == [] {
      assert a + b == b && [] + UpToLogout(b) == UpToLogout(b);
      UpToLogoutNone();
    } else {
      assert (a + b)[1..] == a[1..] + b && a == [a[0]] + a[1..];
      UpToLogoutConcat(a[1..], b);
      UpToLogoutFront(a);
      UpToLogoutFront(a + b);
      assert [a[0]] + (a[1..] + UpToLogout(b)) == a + UpToLogout(b);
    }
  }

  /** The receive loop of one client, one chunk at a time. */
  class Receiver {
    var buffer: string
    var handled: seq<TagMap>
    var closed: bool
    ghost var received: string

    /** What has been handled is what one parse of the whole stream would hand over. */
    ghost predicate Valid()
      reads this
    {
      var f := Frames(received);
      && handled == UpToLogout(AllTags(f.messages))
      && (closed <==> HasLogout(AllTags(f.messages)))
      && (!closed ==> buffer == f.rest)
    }

    constructor ()
      ensures Valid() && received == "" && handled == [] && !closed
    {
      buffer, handled, closed, received := "", [], false, "";
    }

    method OnChunk(chunk: string)
      requires Valid()
      modifies this
      ensures Valid()
      ensures received == old(received) + chunk
    {
      hide Frames, AllTags, HasLogout;
      FramesChunk(received, chunk);
      ghost var before := AllTags(Frames(received).messages);
      AllTagsConcat(Frames(received).messages, Frames(Frames(received).rest + chunk).messages);
      UpToLogoutConcat(before, AllTags(Frames(Frames(received).rest + chunk).messages));
      received := received + chunk;
      if closed {
        return;
      }
      buffer := buffer + chunk;
      var messages;
      messages, buffer := ParseFIXMessages(buffer);
      Handle(messages, before);
    }

    /** Handle messages in order; a logout ends the session on the spot. */
    method Handle(messages: seq<TagMap>, ghost before: seq<TagMap>)
      requires !closed && handled == before
      modifies this`handled, this`closed
      ensures handled == before + UpToLogout(messages)
      ensures closed <==> HasLogout(messages)
    {
      for i := 0 to |messages|
        invariant !closed && handled == before + messages[..i] && !HasLogout(messages[..i])
      {
        var msg := messages[i];
        UpToLogoutConcat(messages[..i], messages[i..]);
        assert messages == messages[..i] + messages[i..];
        handled := handled + [msg];
        if GetTag(msg, 35, "") == "5" {
          assert msg in messages && IsLogout(msg);
          closed := true;
          return;
        }
        assert messages[..i + 1] == messages[..i] + [msg];
        UpToLogoutConcat(messages[..i], [msg]);
      }
      UpToLogoutConcat(messages, []);
      assert messages[..|messages|] == messages && messages + [] == messages;
    }
  }

  /** Where a session ends: at the first message whose MsgType (tag 35) is `5`. Without one everything
      framed is handled and the session stays open. */
  lemma {:induction false} SessionEnds(r: Receiver)
    requires r.Valid()
    ensures var all := AllTags(Frames(r.received).messages);
            && ((forall i :: 0 <= i < |all| ==> !(35 in all[i] && all[i][35] == "5")) ==>
                  r.handled == all && !r.closed)
            && (forall n | 0 <= n < |all| && 35 in all[n] && all[n][35] == "5"
                           && (forall i :: 0 <= i < n ==> !(35 in all[i] && all[i][35] == "5")) ::
                  r.handled == all[..n + 1] && r.closed)
  {
    hide Frames, AllTags, UpToLogout, HasLogout;
    var all := AllTags(Frames(r.received).messages);
    if forall i :: 0 <= i < |all| ==> !(35 in all[i] && all[i][35] == "5") {
      NoLogout(all);
    }
    forall n | 0 <= n < |all| && 35 in all[n] && all[n][35] == "5"
             && (forall i :: 0 <= i < n ==> !(35 in all[i] && all[i][35] == "5"))
      ensures r.handled == all[..n + 1] && r.closed
    {
      FirstLogout(all, n);
    }
  }

  lemma {:induction false} NoLogout(msgs: seq<TagMap>)
    requires forall i :: 0 <= i < |msgs| ==> !(35 in msgs[i] && msgs[i][35] == "5")
    ensures UpToLogout(msgs) == msgs && !HasLogout(msgs)
  {
    if msgs == [] {
    } else {
      NoLogout(msgs[1..]);
      UpToLogoutFront(msgs);
    }
  }

  lemma {:induction false} FirstLogout(msgs: seq<TagMap>, n: nat)
    requires n < |msgs| && 35 in msgs[n] && msgs[n][35] == "5"
    requires forall i :: 0 <= i < n ==> !(35 in msgs[i] && msgs[i][35] == "5")
    ensures UpToLogout(msgs) == msgs[..n + 1] && HasLogout(msgs)
  {
    hide UpToLogout, HasLogout;
    NoLogout(msgs[..n]);
    UpToLogoutFront(msgs[n..]);
    UpToLogoutConcat(msgs[..n], msgs[n..]);
    assert msgs == msgs[..n] + msgs[n..] && msgs[..n + 1] == msgs[..n] + [msgs[n]];
  }

  function Concat(chunks: seq<string>): string {
    if chunks == [] then "" else chunks[0] + Concat(chunks[1..])
  }

  lemma {:induction false} ConcatNone(got: string)
    ensures got + Concat([]) == got
  {
  }

  lemma {:induction false} ConcatStep(got: string, chunks: seq<string>)
    requires chunks != []
    ensures got + Concat(chunks) == got + chunks[0] + Concat(chunks[1..])
  {
  }

  /** However a stream is cut into chunks, the session handles the same messages and keeps the
      same leftover as if the stream had come in one piece. */
  method ClientRecvLoop(chunks: seq<string>) returns (r: Receiver)
    ensures fresh(r) && r.Valid() && r.received == Concat(chunks)
  {
    hide Frames, AllTags, UpToLogout, HasLogout, Concat;
    r := new Receiver();
    assert chunks[0..] == chunks;
    for i := 0 to |chunks|
      invariant fresh(r) && r.Valid() && r.received + Concat(chunks[i..]) == Concat(chunks)
    {
      assert chunks[i..][1..] == chunks[i + 1..];
      ConcatStep(r.received, chunks[i..]);
      r.OnChunk(chunks[i]);
    }
    assert chunks[|chunks|..] == [];
    ConcatNone(r.received);
  }

  lemma {:induction false} FramesPeel(raws: seq<string>, buf: string)
    requires FrameLength(buf) > 0
    ensures var n := FrameLength(buf);
            && raws + [buf[..n]] + Frames(buf[n..]).messages == raws + Frames(buf).messages
            && Frames(buf[n..]).rest == Frames(buf).rest
  {
    hide FrameLength, AllTags, Tags;
    FramesStep(buf);
  }

  /** The receive loop of the dashboard's bridge frames the stream in the same way. */
  method BridgeFrames(start: string) returns (raws: seq<string>, buf: string)
    ensures Framing(raws, buf) == Frames(start)
  {
    hide Frames, AllTags, Tags, FindChar, FindTrailer, TrailerAt;
    raws, buf := [], start;
    FramesStep(start);
    assert [] + Frames(start).messages == Frames(start).messages;
    while FindTrailer(buf, 0) < |buf|
      invariant raws + Frames(buf).messages == Frames(start).messages && Frames(buf).rest == Frames(start).rest
      decreases |buf|
    {
      var end := FindChar(buf, SOH, FindTrailer(buf, 0));
      if end == |buf| {
        break;
      }
      FramesPeel(raws, buf);
      raws := raws + [buf[..end + 1]];
      buf := buf[end + 1..];
    }
    FramesStep(buf);
  }
}
