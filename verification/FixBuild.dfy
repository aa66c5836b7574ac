/** FIX messages as `sendFIX` builds them (src/actors/FIXAcceptorActor.cpp:292-335), the round
    trip through the receiving parser, and the two counts of the FIX 4.4 standard message header
    and trailer. */
module FixBuild {
  import opened Fix

  datatype Field = Field(tag: nat, val: string)

  // ----- Printing ------------------------------------------------------------------------------

  function DigitChar(d: nat): char
    requires d < 10
  {
    ('0' as int + d) as char
  }

  /** Decimal form of a number, as a stream prints it. */
  function Dec(n: nat): (s: string)
    ensures |s| > 0
    ensures forall c :: c in s ==> IsDigit(c)
  {
    if n < 10 then [DigitChar(n)] else Dec(n / 10) + [DigitChar(n % 10)]
  }

  /** `%03d` of a number below 1000. */
  function Pad3(n: nat): (s: string)
    requires n < 1000
    ensures |s| == 3 && forall c :: c in s ==> IsDigit(c)
  {
    [DigitChar(n / 100), DigitChar(n / 10 % 10), DigitChar(n % 10)]
  }

  function Text(f: Field): string { Dec(f.tag) + "=" + f.val + [SOH] }

  function Texts(fs: seq<Field>): string {
    if fs == [] then "" else Text(fs[0]) + Texts(fs[1..])
  }

  function ByteSum(s: string): nat {
    if s == [] then 0 else s[0] as nat + ByteSum(s[1..])
  }

  /** The fields in front of the caller's own. */
  function Preamble(msgType: string, sender: string, seqNum: nat, time: string): seq<Field> {
    [Field(35, msgType), Field(49, "EUNEX"), Field(56, sender), Field(34, Dec(seqNum)), Field(52, time)]
  }

  /** Everything in front of the trailer: begin string, body length, body. */
  function Head(body: seq<Field>): seq<Field> {
    [Field(8, "FIX.4.4"), Field(9, Dec(|Texts(body)|))] + body
  }

  function CheckSum(s: string): nat { ByteSum(s) % 256 }

  /** The message with the given body fields. */
  function Message(body: seq<Field>): string {
    Texts(Head(body)) + Text(Field(10, Pad3(CheckSum(Texts(Head(body))))))
  }

  lemma {:induction false} TextsConcat(a: seq<Field>, b: seq<Field>)
    ensures Texts(a + b) == Texts(a) + Texts(b)
  {
    if a == [] {
      assert a + b == b;
    } else {
      assert (a + b)[1..] == a[1..] + b;
      TextsConcat(a[1..], b);
    }
  }

  lemma {:induction false} TextsOne(f: Field)
    ensures Texts([f]) == Text(f)
  {
    assert [f][1..] == [] && Text(f) + "" == Text(f);
  }

  lemma {:induction false} ByteSumConcat(a: string, b: string)
    ensures ByteSum(a + b) == ByteSum(a) + ByteSum(b)
  {
    if a == [] {
      assert a + b == b;
    } else {
      assert (a + b)[1..] == a[1..] + b;
      ByteSumConcat(a[1..], b);
    }
  }

  /** A session, as far as sending goes; `sent` is what went to the socket. */
  class FIXSession {
    var senderCompId: string
    var msgSeqNum: nat
    var sent: seq<string>

    constructor (sender: string)
      ensures senderCompId == sender && msgSeqNum == 1 && sent == []
    {
      senderCompId, msgSeqNum, sent := sender, 1, [];
    }

    method SendFIX(msgType: string, fields: seq<Field>, time: string)
      modifies this`msgSeqNum, this`sent
      ensures msgSeqNum == old(msgSeqNum) + 1
      ensures sent == old(sent) + [Message(Preamble(msgType, senderCompId, old(msgSeqNum), time) + fields)]
    {
      hide Text, Preamble;
      ghost var pre := Preamble(msgType, senderCompId, msgSeqNum, time);
      var body := Header(msgType, msgSeqNum, time);
      msgSeqNum := msgSeqNum + 1;
      for i := 0 to |fields|
        invariant msgSeqNum == old(msgSeqNum) + 1 && sent == old(sent)
        invariant body == Texts(pre + fields[..i])
      {
        assert pre + fields[..i + 1] == pre + fields[..i] + [fields[i]];
        TextsConcat(pre + fields[..i], [fields[i]]);
        TextsOne(fields[i]);
        body := body + Text(fields[i]);
      }
      assert fields[..|fields|] == fields;
      ghost var all := pre + fields;
      var raw := Text(Field(8, "FIX.4.4")) + Text(Field(9, Dec(|body|))) + body;
      HeadText(all);
      var checksum: nat := 0;
      for i := 0 to |raw|
        invariant msgSeqNum == old(msgSeqNum) + 1 && sent == old(sent)
        invariant checksum == ByteSum(raw[..i])
      {
        assert raw[..i + 1] == raw[..i] + [raw[i]];
        ByteSumConcat(raw[..i], [raw[i]]);
        assert [raw[i]][1..] == [];
        checksum := checksum + raw[i] as nat;
      }
      assert raw[..|raw|] == raw;
      checksum := checksum % 256;
      raw := raw + Text(Field(10, Pad3(checksum)));
      sent := sent + [raw];
    }

    method Header(msgType: string, seqNum: nat, time: string) returns (body: string)
      ensures body == Texts(Preamble(msgType, senderCompId, seqNum, time) + [])
    {
      body := Text(Field(35, msgType)) + Text(Field(49, "EUNEX")) + Text(Field(56, senderCompId));
      body := body + Text(Field(34, Dec(seqNum))) + Text(Field(52, time));
      FiveTexts(Field(35, msgType), Field(49, "EUNEX"), Field(56, senderCompId), Field(34, Dec(seqNum)),
          Field(52, time));
    }
  }

  lemma {:induction false} FiveTexts(a: Field, b: Field, c: Field, d: Field, e: Field)
    ensures Texts([a, b, c, d, e] + []) == Text(a) + Text(b) + Text(c) + Text(d) + Text(e)
  {
    hide Text;
    assert [a, b, c, d, e] + [] == [a] + [b] + [c] + [d] + [e];
    TextsConcat([a] + [b] + [c] + [d], [e]);
    TextsConcat([a] + [b] + [c], [d]);
    TextsConcat([a] + [b], [c]);
    TextsConcat([a], [b]);
    TextsOne(a);
    TextsOne(b);
    TextsOne(c);
    TextsOne(d);
    TextsOne(e);
  }

  lemma {:induction false} HeadText(body: seq<Field>)
    ensures Texts(Head(body)) == Text(Field(8, "FIX.4.4")) + Text(Field(9, Dec(|Texts(body)|))) + Texts(body)
  {
    hide Text;
    var a, b := Field(8, "FIX.4.4"), Field(9, Dec(|Texts(body)|));
    assert [a, b] + body == [a] + [b] + body;
    TextsConcat([a] + [b], body);
    TextsConcat([a], [b]);
    TextsOne(a);
    TextsOne(b);
  }

  // ----- Reading numbers back -----------------------------------------------------------------------

  lemma {:induction false} DigitsConcat(a: string, d: nat, acc: nat)
    requires (forall c :: c in a ==> IsDigit(c)) && d < 10
    ensures Digits(a + [DigitChar(d)], acc) == 10 * Digits(a, acc) + d
  {
    if a == [] {
      assert a + [DigitChar(d)] == [DigitChar(d)];
      assert [DigitChar(d)][1..] == [];
    } else {
      assert a[0] in a;
      assert (a + [DigitChar(d)])[1..] == a[1..] + [DigitChar(d)];
      DigitsConcat(a[1..], d, 10 * acc + DigitValue(a[0]));
    }
  }

  lemma {:induction false} DigitsDec(n: nat)
    ensures Digits(Dec(n), 0) == n
  {
    if n < 10 {
      assert Dec(n)[1..] == [];
    } else {
      DigitsDec(n / 10);
      DigitsConcat(Dec(n / 10), n % 10, 0);
    }
  }

  lemma {:induction false} AtoiDigits(s: string)
    requires s != [] && forall c :: c in s ==> IsDigit(c)
    ensures Atoi(s) == Digits(s, 0)
  {
    assert s[0] in s;
  }

  /** `atoi` undoes decimal printing. */
  lemma {:induction false} AtoiDec(n: nat)
    ensures Atoi(Dec(n)) == n
  {
    AtoiDigits(Dec(n));
    DigitsDec(n);
  }

  lemma {:induction false} ThreeDigits(a: nat, b: nat, c: nat)
    requires a < 10 && b < 10 && c < 10
    ensures Digits([DigitChar(a), DigitChar(b), DigitChar(c)], 0) == 100 * a + 10 * b + c
  {
    var s := [DigitChar(a), DigitChar(b), DigitChar(c)];
    assert s[1..] == [DigitChar(b), DigitChar(c)] && s[1..][1..] == [DigitChar(c)] && s[1..][1..][1..] == [];
    DigitsOnce(s, 0, a);
    DigitsOnce(s[1..], a, b);
    DigitsOnce(s[1..][1..], 10 * a + b, c);
  }

  lemma {:induction false} DigitsOnce(s: string, acc: nat, d: nat)
    requires s != [] && d < 10 && s[0] == DigitChar(d)
    ensures Digits(s, acc) == Digits(s[1..], 10 * acc + d)
    ensures |s| == 1 ==> Digits(s, acc) == 10 * acc + d
  {
  }

  lemma {:induction false} AtoiPad3(n: nat)
    requires n < 1000
    ensures Atoi(Pad3(n)) == n
  {
    hide Atoi, Digits, DigitChar;
    AtoiDigits(Pad3(n));
    ThreeDigits(n / 100, n / 10 % 10, n % 10);
  }

  // ----- Where the trailer can stand --------------------------------------------------------------------

  predicate EndsIn10(s: string) { |s| >= 2 && s[|s| - 2] == '1' && s[|s| - 1] == '0' }

  ghost predicate FreeOfSoh(s: string) { forall k :: 0 <= k < |s| ==> s[k] != SOH }

  ghost predicate FreeOfTrailer(s: string) { forall k :: 0 <= k < |s| ==> !TrailerAt(s, k) }

  /** A field whose text cannot be mistaken for the trailer. */
  ghost predicate Plain(f: Field) { !EndsIn10(Dec(f.tag)) && FreeOfTrailer(f.val) }

  /** The bytes of one field: digits, `=`, the value, the delimiter. */
  lemma {:induction false} FieldBytes(f: Field, rest: string)
    ensures var t, n := Text(f) + rest, |Dec(f.tag)|;
            && |Text(f)| == n + |f.val| + 2
            && (forall k :: 0 <= k < n ==> t[k] == Dec(f.tag)[k] && IsDigit(t[k]))
            && t[n] == '='
            && (forall k :: n < k < n + 1 + |f.val| ==> t[k] == f.val[k - n - 1])
            && t[n + 1 + |f.val|] == SOH
            && t[..n] == Dec(f.tag) && t[n + 1..n + 1 + |f.val|] == f.val
  {
    var t, n := Text(f) + rest, |Dec(f.tag)|;
    forall k | 0 <= k < n ensures t[k] == Dec(f.tag)[k] && IsDigit(t[k]) {
      assert Dec(f.tag)[k] in Dec(f.tag);
    }
  }

  /** Within one field, followed by anything, `10=` shows up exactly if the field is not plain. */
  lemma {:induction false} TrailerInField(f: Field, rest: string, i: nat)
    requires FreeOfSoh(f.val) && Plain(f) && i < |Text(f)|
    ensures !TrailerAt(Text(f) + rest, i)
  {
    hide Text, Dec;
    var n, t := |Dec(f.tag)|, Text(f) + rest;
    FieldBytes(f, rest);
    if i + 2 < n {
      assert IsDigit(t[i + 2]);
    } else if n < i <= n + |f.val| {
      assert !TrailerAt(f.val, i - n - 1);
      if i + 2 <= n + |f.val| {
        assert t[i] == f.val[i - n - 1] && t[i + 1] == f.val[i - n] && t[i + 2] == f.val[i - n + 1];
      }
    }
  }

  lemma {:induction false} FieldHasTrailer(f: Field, rest: string) returns (i: nat)
    requires FreeOfSoh(f.val) && !Plain(f)
    ensures i < |Text(f)| && TrailerAt(Text(f) + rest, i)
  {
    hide Text, Dec;
    var n := |Dec(f.tag)|;
    FieldBytes(f, rest);
    if EndsIn10(Dec(f.tag)) {
      i := n - 2;
    } else {
      var k :| 0 <= k < |f.val| && TrailerAt(f.val, k);
      i := n + 1 + k;
    }
  }

  ghost predicate AllPlain(fs: seq<Field>) { forall f :: f in fs ==> Plain(f) }

  ghost predicate AllFreeOfSoh(fs: seq<Field>) { forall f :: f in fs ==> FreeOfSoh(f.val) }

  /** The first `10=` behind plain fields is the one that follows them. */
  lemma {:induction false} NoTrailerIn(fs: seq<Field>, rest: string, i: nat)
    requires AllPlain(fs) && AllFreeOfSoh(fs) && i < |Texts(fs)|
    ensures !TrailerAt(Texts(fs) + rest, i)
  {
    hide Text, Plain, FreeOfSoh, TrailerAt;
    var f, more := fs[0], Texts(fs[1..]);
    assert f in fs;
    assert Texts(fs) + rest == Text(f) + (more + rest);
    if i < |Text(f)| {
      TrailerInField(f, more + rest, i);
    } else {
      NoTrailerIn(fs[1..], rest, i - |Text(f)|);
      TrailerShift(Text(f), more + rest, i - |Text(f)|);
    }
  }

  lemma {:induction false} TrailerShift(a: string, b: string, i: nat)
    ensures TrailerAt(a + b, |a| + i) <==> TrailerAt(b, i)
  {
  }

  lemma {:induction false} TrailerText(s: string)
    ensures TrailerAt(Text(Field(10, s)), 0)
    ensures Text(Field(10, s)) == "10=" + s + [SOH]
  {
    assert Dec(10) == "10" by { assert Dec(1) == "1"; }
  }

  /** A message with plain fields is one frame, whatever follows it in the stream. */
  lemma {:induction false} PlainFrame(fs: seq<Field>, cs: string, tail: string)
    requires AllPlain(fs) && AllFreeOfSoh(fs) && FreeOfSoh(cs)
    ensures FrameLength(Texts(fs) + Text(Field(10, cs)) + tail) == |Texts(fs) + Text(Field(10, cs))|
  {
    hide AllPlain, AllFreeOfSoh, Text;
    var a, b := Texts(fs), Text(Field(10, cs));
    var s := a + b + tail;
    TrailerText(cs);
    assert s == a + (b + tail);
    forall i | 0 <= i < |a| ensures !TrailerAt(s, i) { NoTrailerIn(fs, b + tail, i); }
    assert forall k :: 0 <= k < |b| ==> s[|a| + k] == b[k];
    assert TrailerAt(s, |a|);
    FoundTrailer(s, 0, |a|);
    forall k | |a| <= k < |a| + |b| - 1 ensures s[k] != SOH { assert s[k] == b[k - |a|]; }
    assert s[|a| + |b| - 1] == b[|b| - 1];
    FoundChar(s, SOH, |a|, |a| + |b| - 1);
  }

  /** ... and only such a message is: a field that is not plain ends the frame early. */
  lemma {:induction false} NotPlainCuts(fs: seq<Field>, cs: string)
    requires !AllPlain(fs) && AllFreeOfSoh(fs)
    ensures FrameLength(Texts(fs) + Text(Field(10, cs))) <= |Texts(fs)|
  {
    hide Text, Plain, FreeOfSoh;
    var f :| f in fs && !Plain(f);
    var j :| 0 <= j < |fs| && fs[j] == f;
    var a, b := Texts(fs[..j]), Texts(fs[j + 1..]) + Text(Field(10, cs));
    assert fs == fs[..j] + ([f] + fs[j + 1..]);
    TextsConcat(fs[..j], [f] + fs[j + 1..]);
    assert ([f] + fs[j + 1..])[1..] == fs[j + 1..];
    assert Texts(fs) == a + (Text(f) + Texts(fs[j + 1..]));
    assert Texts(fs) + Text(Field(10, cs)) == a + (Text(f) + b);
    CutWithin(a, f, b);
  }

  lemma {:induction false} CutWithin(a: string, f: Field, b: string)
    requires FreeOfSoh(f.val) && !Plain(f)
    ensures FrameLength(a + (Text(f) + b)) <= |a| + |Text(f)|
  {
    hide Text, Plain;
    var s, t := a + (Text(f) + b), Text(f) + b;
    var i := FieldHasTrailer(f, b);
    FieldBytes(f, b);
    assert forall k :: |a| <= k < |s| ==> s[k] == t[k - |a|];
    assert TrailerAt(s, |a| + i) && t[|Text(f)| - 1] == SOH && s[|a| + |Text(f)| - 1] == SOH;
    var c := FindTrailer(s, 0);
    assert c <= |a| + i;
    assert FindChar(s, SOH, c) <= |a| + |Text(f)| - 1;
  }

  // ----- Reading the tags back ------------------------------------------------------------------------------

  /** The tag map a list of fields amounts to: a repeated tag keeps its last value. */
  function Fold(fs: seq<Field>, tags: TagMap): TagMap
    decreases fs
  {
    if fs == [] then tags else Fold(fs[1..], tags[fs[0].tag := fs[0].val])
  }

  /** Where the parser finds the end of the tag and the end of the value. */
  lemma {:induction false} FieldEnds(raw: string, pos: nat, f: Field, rest: string)
    requires pos <= |raw| && raw[pos..] == Text(f) + rest && FreeOfSoh(f.val)
    ensures var n := |Dec(f.tag)|;
            && |raw| >= pos + |Text(f)| == pos + n + |f.val| + 2
            && FindChar(raw, '=', pos) == pos + n
            && FindChar(raw, SOH, pos + n) == pos + n + 1 + |f.val|
  {
    hide Text, Dec;
    var n, t := |Dec(f.tag)|, Text(f) + rest;
    FieldBytes(f, rest);
    assert forall k :: pos <= k < pos + |t| ==> raw[k] == t[k - pos];
    forall k | pos <= k < pos + n ensures raw[k] != '=' { assert IsDigit(t[k - pos]); }
    FoundChar(raw, '=', pos, pos + n);
    forall k | pos + n <= k < pos + n + 1 + |f.val| ensures raw[k] != SOH {
      if k > pos + n { assert t[k - pos] == f.val[k - pos - n - 1]; }
    }
    FoundChar(raw, SOH, pos + n, pos + n + 1 + |f.val|);
  }

  lemma {:induction false} ReadField(raw: string, pos: nat, f: Field, rest: string, tags: TagMap)
    requires pos <= |raw| && raw[pos..] == Text(f) + rest && FreeOfSoh(f.val)
    ensures TagsFrom(raw, pos, tags) == TagsFrom(raw, pos + |Text(f)|, tags[f.tag := f.val])
  {
    hide Text, Dec, Atoi, TagsFrom, FindChar;
    var n, t := |Dec(f.tag)|, Text(f) + rest;
    FieldBytes(f, rest);
    FieldEnds(raw, pos, f, rest);
    assert raw[pos..pos + n] == t[..n];
    assert raw[pos + n + 1..pos + n + 1 + |f.val|] == t[n + 1..n + 1 + |f.val|];
    AtoiDec(f.tag);
    TagsStep(raw, pos, tags, pos + n, pos + n + 1 + |f.val|);
  }

  lemma {:induction false} ReadFields(raw: string, pos: nat, fs: seq<Field>, tags: TagMap)
    requires pos <= |raw| && raw[pos..] == Texts(fs) && AllFreeOfSoh(fs)
    ensures TagsFrom(raw, pos, tags) == Fold(fs, tags)
    decreases fs
  {
    hide Text, TagsFrom;
    if fs == [] {
      TagsEnd(raw, pos, tags);
    } else {
      assert fs[0] in fs;
      ReadField(raw, pos, fs[0], Texts(fs[1..]), tags);
      NextField(raw, pos, Text(fs[0]), Texts(fs[1..]));
      ReadFields(raw, pos + |Text(fs[0])|, fs[1..], tags[fs[0].tag := fs[0].val]);
    }
  }

  lemma {:induction false} NextField(raw: string, pos: nat, text: string, rest: string)
    requires pos <= |raw| && raw[pos..] == text + rest
    ensures pos + |text| <= |raw| && raw[pos + |text|..] == rest
  {
    assert raw[pos + |text|..] == raw[pos..][|text|..];
  }

  ghost predicate DistinctTags(fs: seq<Field>) {
    forall i, j :: 0 <= i < j < |fs| ==> fs[i].tag != fs[j].tag
  }

  /** With distinct tags every field is found under its tag. */
  lemma {:induction false} FoldKeeps(fs: seq<Field>, tags: TagMap)
    requires DistinctTags(fs)
    ensures forall f :: f in fs ==> f.tag in Fold(fs, tags) && Fold(fs, tags)[f.tag] == f.val
    ensures forall t :: t in tags && (forall f :: f in fs ==> f.tag != t) ==>
        t in Fold(fs, tags) && Fold(fs, tags)[t] == tags[t]
    ensures forall t :: t in Fold(fs, tags) ==> t in tags || exists f :: f in fs && f.tag == t
    decreases fs
  {
    if fs == [] {
    } else {
      var f, tl := fs[0], fs[1..];
      FoldKeeps(tl, tags[f.tag := f.val]);
      forall g | g in tl ensures g.tag != f.tag {
        var k :| 0 <= k < |tl| && tl[k] == g;
        assert fs[k + 1] == g;
      }
      assert forall g :: g in fs <==> g == f || g in tl;
    }
  }

  /** All fields of a message, the trailer included. */
  function Sent(body: seq<Field>): seq<Field> {
    Head(body) + [Field(10, Pad3(CheckSum(Texts(Head(body)))))]
  }

  lemma {:induction false} DigitsPlain(s: string)
    requires forall c :: c in s ==> IsDigit(c)
    ensures FreeOfSoh(s) && FreeOfTrailer(s)
  {
    forall k | 0 <= k < |s| ensures s[k] != SOH && s[k] != '=' { assert s[k] in s; }
    forall k | 0 <= k < |s| ensures !TrailerAt(s, k) {
      if k + 2 < |s| { assert s[k + 2] != '='; }
    }
  }

  lemma {:induction false} HeadPlain(body: seq<Field>)
    requires AllFreeOfSoh(body)
    ensures AllFreeOfSoh(Head(body)) && AllFreeOfSoh(Sent(body))
    ensures AllPlain(Head(body)) <==> AllPlain(body)
  {
    var a, b, c := Field(8, "FIX.4.4"), Field(9, Dec(|Texts(body)|)), Field(10, Pad3(CheckSum(Texts(Head(body)))));
    DigitsPlain(b.val);
    DigitsPlain(c.val);
    assert Dec(8) == "8" && Dec(9) == "9";
    assert Plain(a) by { assert forall k :: 0 <= k < |a.val| ==> a.val[k] != '=' && a.val[k] != SOH; }
    assert Plain(b);
    assert FreeOfSoh(a.val);
    assert forall f :: f in Head(body) <==> f == a || f == b || f in body;
    assert forall f :: f in Sent(body) <==> f in Head(body) || f == c;
  }

  /** The tag map has the fields, and no others. */
  ghost predicate HoldsExactly(tags: TagMap, fs: seq<Field>) {
    && (forall f :: f in fs ==> f.tag in tags && tags[f.tag] == f.val)
    && (forall t :: t in tags ==> exists f :: f in fs && f.tag == t)
  }

  lemma {:induction false} HeldAt(tags: TagMap, fs: seq<Field>, k: nat)
    requires HoldsExactly(tags, fs) && k < |fs|
    ensures fs[k].tag in tags && tags[fs[k].tag] == fs[k].val
  {
    assert fs[k] in fs;
  }

  /** Round trip: with plain fields, whatever follows in the stream, the parser cuts the message
      off exactly and reads back the fields that were sent, no more and no less. */
  lemma {:induction false} RoundTrip(body: seq<Field>, tail: string)
    requires AllPlain(body) && AllFreeOfSoh(body)
    ensures var m := Message(body);
            && Frames(m + tail) == Framing([m] + Frames(tail).messages, Frames(tail).rest)
            && (DistinctTags(Sent(body)) ==> HoldsExactly(Tags(m), Sent(body)))
  {
    hide Head, AllPlain, Frames, Tags, Message, Fold;
    FramedWhole(body, tail);
    ReadBack(body);
    if DistinctTags(Sent(body)) { FoldKeeps(Sent(body), map[]); }
  }

  lemma {:induction false} FramedWhole(body: seq<Field>, tail: string)
    requires AllPlain(body) && AllFreeOfSoh(body)
    ensures var m := Message(body);
            Frames(m + tail) == Framing([m] + Frames(tail).messages, Frames(tail).rest)
  {
    hide Head, Text, AllPlain, Frames, Tags, FrameLength, AllTags;
    var cs := Pad3(CheckSum(Texts(Head(body))));
    var m := Message(body);
    HeadPlain(body);
    DigitsPlain(cs);
    TrailerText(cs);
    PlainFrame(Head(body), cs, tail);
    assert (m + tail)[..|m|] == m && (m + tail)[|m|..] == tail;
    FramesStep(m + tail);
  }

  lemma {:induction false} ReadBack(body: seq<Field>)
    requires AllFreeOfSoh(body)
    ensures Tags(Message(body)) == Fold(Sent(body), map[])
  {
    hide Head, Text, Fold, TagsFrom;
    var cs := Pad3(CheckSum(Texts(Head(body))));
    var m := Message(body);
    HeadPlain(body);
    TextsConcat(Head(body), [Field(10, cs)]);
    TextsOne(Field(10, cs));
    assert m[0..] == m == Texts(Sent(body));
    ReadFields(m, 0, Sent(body), map[]);
  }

  /** The exact condition, for values without delimiters: a message is received as one message
      exactly when no tag ends in the digits 10 and no value contains `10=`. */
  lemma {:induction false} ReceivedWholeIff(body: seq<Field>)
    requires AllFreeOfSoh(body)
    ensures Frames(Message(body)) == Framing([Message(body)], "") <==> AllPlain(body)
  {
    hide Head, Text;
    var m := Message(body);
    HeadPlain(body);
    assert m + "" == m;
    if AllPlain(body) {
      RoundTrip(body, "");
      assert Frames("") == Framing([], "");
    } else {
      NotPlainCuts(Head(body), Pad3(CheckSum(Texts(Head(body)))));
      TrailerText(Pad3(CheckSum(Texts(Head(body)))));
      assert |Frames(m).messages| > 0 ==> Frames(m).messages[0] == m[..FrameLength(m)];
    }
  }

  /** What goes over the wire, read back: the begin string, who sends to whom, the type, the number and
      the time of the message, and the caller's own fields. */
  lemma {:induction false} SentReadBack(msgType: string, target: string, seqNum: nat, time: string, fields: seq<Field>)
    requires AllFreeOfSoh([Field(35, msgType), Field(56, target), Field(52, time)] + fields)
    requires DistinctTags(fields) && forall f :: f in fields ==> f.tag !in {8, 9, 10, 34, 35, 49, 52, 56}
    ensures var m := Message(Preamble(msgType, target, seqNum, time) + fields);
            var tags := Tags(m);
            && m != "" && m[|m| - 1] as int == 1
            && {8, 34, 35, 49, 52, 56} <= tags.Keys
            && tags[8] == "FIX.4.4" && tags[35] == msgType && tags[49] == "EUNEX" && tags[56] == target
            && Atoi(tags[34]) == seqNum && tags[52] == time
            && (forall f :: f in fields ==> f.tag in tags && tags[f.tag] == f.val)
  {
    hide Dec, Tags, Message, Fold, CheckSum, FreeOfSoh, Texts, Sent, DistinctTags, Atoi;
    var pre := Preamble(msgType, target, seqNum, time);
    MessageEnds(pre + fields);
    PreambleFree(msgType, target, seqNum, time, fields);
    ReadBack(pre + fields);
    SentDistinctTags(pre, fields);
    AtoiDec(seqNum);
    var all := Sent(pre + fields);
    SentAt(pre, fields);
    FoundAt(all, 0);
    FoundAt(all, 2);
    FoundAt(all, 3);
    FoundAt(all, 4);
    FoundAt(all, 5);
    FoundAt(all, 6);
    forall f | f in fields ensures f.tag in Fold(all, map[]) && Fold(all, map[])[f.tag] == f.val {
      var k :| 0 <= k < |fields| && fields[k] == f;
      FoundAt(all, k + 7);
    }
  }

  lemma {:induction false} SentAt(pre: seq<Field>, fields: seq<Field>)
    requires |pre| == 5
    ensures var all := Sent(pre + fields);
            && |all| == |fields| + 8 && all[0] == Field(8, "FIX.4.4")
            && all[2] == pre[0] && all[3] == pre[1] && all[4] == pre[2] && all[5] == pre[3] && all[6] == pre[4]
            && (forall k :: 0 <= k < |fields| ==> all[k + 7] == fields[k])
  {
    hide CheckSum, Texts, Dec;
  }

  lemma {:induction false} FoundAt(fs: seq<Field>, k: nat)
    requires DistinctTags(fs) && k < |fs|
    ensures fs[k].tag in Fold(fs, map[]) && Fold(fs, map[])[fs[k].tag] == fs[k].val
  {
    hide Fold;
    FoldKeeps(fs, map[]);
    assert fs[k] in fs;
  }

  lemma {:induction false} MessageEnds(body: seq<Field>)
    ensures Message(body) != "" && Message(body)[|Message(body)| - 1] as int == 1
  {
    hide Head, Texts, CheckSum;
  }

  lemma {:induction false} PreambleFree(msgType: string, target: string, seqNum: nat, time: string, fields: seq<Field>)
    requires AllFreeOfSoh([Field(35, msgType), Field(56, target), Field(52, time)] + fields)
    ensures AllFreeOfSoh(Preamble(msgType, target, seqNum, time) + fields)
  {
    hide Dec, FreeOfSoh;
    var given := [Field(35, msgType), Field(56, target), Field(52, time)];
    DigitsPlain(Dec(seqNum));
    assert FreeOfSoh("EUNEX") by { ShortPlain(Field(49, "EUNEX")); }
    forall f | f in Preamble(msgType, target, seqNum, time) + fields ensures FreeOfSoh(f.val) {
      if f in fields {
        assert f in given + fields;
      } else {
        assert f in Preamble(msgType, target, seqNum, time);
        assert given[0] in given + fields && given[1] in given + fields && given[2] in given + fields;
      }
    }
  }

  lemma {:induction false} SentDistinctTags(pre: seq<Field>, fields: seq<Field>)
    requires |pre| == 5 && pre[0].tag == 35 && pre[1].tag == 49 && pre[2].tag == 56
    requires pre[3].tag == 34 && pre[4].tag == 52
    requires DistinctTags(fields) && forall f :: f in fields ==> f.tag !in {8, 9, 10, 34, 35, 49, 52, 56}
    ensures DistinctTags(Sent(pre + fields))
  {
    hide Dec, CheckSum, Texts;
    var all := Sent(pre + fields);
    assert |all| == |fields| + 8 && all[0].tag == 8 && all[1].tag == 9 && all[|all| - 1].tag == 10;
    assert forall k :: 0 <= k < 5 ==> all[k + 2] == pre[k];
    forall k | 7 <= k < |all| - 1 ensures all[k] == fields[k - 7] && all[k].tag !in {8, 9, 10, 34, 35, 49, 52, 56} {
      assert all[k] in fields;
    }
  }

  lemma {:induction false} OneDelimiter(f: Field, rest: string)
    requires FreeOfSoh(f.val)
    ensures |Text(f)| > 0 && (Text(f) + rest)[|Text(f)| - 1] == SOH
    ensures forall k :: 0 <= k < |Text(f)| - 1 ==> (Text(f) + rest)[k] != SOH
  {
    hide Text;
    TextDelimited(f);
  }

  /** Behind plain fields, the first field that is not plain ends the frame. */
  lemma {:induction false} FirstNotPlain(fs: seq<Field>, f: Field, rest: string)
    requires AllPlain(fs) && AllFreeOfSoh(fs) && FreeOfSoh(f.val) && !Plain(f)
    ensures FrameLength(Texts(fs) + (Text(f) + rest)) == |Texts(fs)| + |Text(f)|
  {
    hide Text, Plain, AllPlain, AllFreeOfSoh, Dec;
    var a, t := Texts(fs), Text(f) + rest;
    forall i | 0 <= i < |a| ensures !TrailerAt(a + t, i) { NoTrailerIn(fs, t, i); }
    CutWithin(a, f, rest);
    var i := FieldHasTrailer(f, rest);
    TrailerShift(a, t, i);
    OneDelimiter(f, rest);
    var c := FindTrailer(a + t, 0);
    assert |a| <= c <= |a| + i;
    assert forall k :: |a| <= k < |a| + |t| ==> (a + t)[k] == t[k - |a|];
    FoundChar(a + t, SOH, c, |a| + |Text(f)| - 1);
  }

  const CUTTING_ID: string := "A10=B"

  /** The fields of a logon message, and of the logon the acceptor answers with. */
  function LogonFields(sender: string): seq<Field> { [Field(35, "A"), Field(49, sender)] }

  function LogonEcho(sender: string, time: string): seq<Field> {
    Preamble("A", sender, 1, time) + [Field(98, "0"), Field(108, "30")]
  }

  lemma {:induction false} CuttingId()
    ensures FreeOfSoh(CUTTING_ID)
    ensures !Plain(Field(49, CUTTING_ID)) && !Plain(Field(56, CUTTING_ID))
  {
    assert TrailerAt(CUTTING_ID, 1);
  }

  /** A number of two digits other than 10, with a value that has no `=`, is plain. */
  lemma {:induction false} ShortPlain(f: Field)
    requires f.tag < 100 && f.tag != 10 && forall k :: 0 <= k < |f.val| ==> f.val[k] != '=' && f.val[k] != SOH
    ensures Plain(f) && FreeOfSoh(f.val)
  {
    if f.tag >= 10 {
      assert Dec(f.tag / 10) == [DigitChar(f.tag / 10)];
      assert Dec(f.tag) == [DigitChar(f.tag / 10), DigitChar(f.tag % 10)];
    }
    forall k | 0 <= k < |f.val| ensures !TrailerAt(f.val, k) {
      if k + 2 < |f.val| { assert f.val[k + 2] != '='; }
    }
  }

  /** What is read off a stream that starts with plain fields and one that is not. */
  lemma {:induction false} FirstCut(fs: seq<Field>, f: Field, rest: string)
    requires AllPlain(fs) && AllFreeOfSoh(fs) && FreeOfSoh(f.val) && !Plain(f)
    ensures var s, cut := Texts(fs) + (Text(f) + rest), Texts(fs + [f]);
            && s == cut + rest && Frames(s) == Framing([cut] + Frames(rest).messages, Frames(rest).rest)
            && Tags(cut) == Fold(fs + [f], map[])
  {
    hide Text, Plain, Frames, FrameLength, Fold, AllPlain;
    var s, cut := Texts(fs) + (Text(f) + rest), Texts(fs + [f]);
    TextsConcat(fs, [f]);
    TextsOne(f);
    FirstNotPlain(fs, f, rest);
    assert s == cut + rest && s[..|cut|] == cut && s[|cut|..] == rest;
    assert |Text(f)| > 0 by { FieldBytes(f, ""); }
    FramesStep(s);
    assert cut[0..] == cut;
    ReadFields(cut, 0, fs + [f], map[]);
  }

  /** A client whose own id contains `10=` logs on: its message is received as it is, id included,
      but the acceptor's answer repeats the id and is cut off behind it, so that its receiver
      never sees the rest, the checksum included, as part of the logon. */
  lemma {:induction false} LogonEchoCut(time: string)
    ensures var logon := Texts(LogonFields(CUTTING_ID));
            && Frames(logon) == Framing([logon], "") && Tags(logon) == map[35 := "A", 49 := CUTTING_ID]
    ensures var answer := Frames(Message(LogonEcho(CUTTING_ID, time))).messages;
            && |answer| > 0 && 35 in Tags(answer[0]) && Tags(answer[0])[35] == "A"
            && 10 !in Tags(answer[0]) && 52 !in Tags(answer[0]) && 108 !in Tags(answer[0])
  {
    hide Frames, Tags, Text, Plain, FreeOfSoh;
    CuttingId();
    LogonReceived();
    AnswerCut(time);
  }

  lemma {:induction false} LogonReceived()
    ensures var logon := Texts(LogonFields(CUTTING_ID));
            && Frames(logon) == Framing([logon], "") && Tags(logon) == map[35 := "A", 49 := CUTTING_ID]
  {
    hide Frames, Tags, Text, Plain, FreeOfSoh, Texts;
    var a, f := Field(35, "A"), Field(49, CUTTING_ID);
    CuttingId();
    ShortPlain(a);
    FirstCut([a], f, "");
    NoFrames();
    assert [a] + [f] == LogonFields(CUTTING_ID) && Texts([a] + [f]) + "" == Texts([a] + [f]);
    assert ([a] + [f])[1..] == [f] && [f][1..] == [];
    assert Fold([a] + [f], map[]) == Fold([f], map[35 := "A"]) == Fold([], map[35 := "A", 49 := CUTTING_ID]);
    assert [Texts([a] + [f])] + [] == [Texts([a] + [f])];
  }

  lemma {:induction false} NoFrames()
    ensures Frames("") == Framing([], "")
  {
  }

  /** The fields the acceptor's logon starts with. */
  function Opening(length: nat): seq<Field> {
    [Field(8, "FIX.4.4"), Field(9, Dec(length)), Field(35, "A"), Field(49, "EUNEX")]
  }

  lemma {:induction false} OpeningPlain(length: nat)
    ensures AllPlain(Opening(length)) && AllFreeOfSoh(Opening(length))
  {
    hide Plain, FreeOfSoh, Dec;
    var fs := Opening(length);
    forall k | 0 <= k < |Dec(length)| ensures IsDigit(Dec(length)[k]) { assert Dec(length)[k] in Dec(length); }
    forall f | f in fs ensures Plain(f) && FreeOfSoh(f.val) {
      assert f == fs[0] || f == fs[1] || f == fs[2] || f == fs[3];
      ShortPlain(f);
    }
  }

  lemma {:induction false} AnswerTexts(fs: seq<Field>, f: Field, more: seq<Field>, tail: string)
    ensures Texts(fs + ([f] + more)) + tail == Texts(fs) + (Text(f) + (Texts(more) + tail))
  {
    hide Text, Texts;
    TextsConcat(fs, [f] + more);
    TextsConcat([f], more);
    TextsOne(f);
  }

  lemma {:induction false} AnswerCut(time: string)
    ensures var answer := Frames(Message(LogonEcho(CUTTING_ID, time))).messages;
            && |answer| > 0 && 35 in Tags(answer[0]) && Tags(answer[0])[35] == "A"
            && 10 !in Tags(answer[0]) && 52 !in Tags(answer[0]) && 108 !in Tags(answer[0])
  {
    hide Frames, Tags, Text, Plain, FreeOfSoh, Texts, Fold;
    var body := LogonEcho(CUTTING_ID, time);
    var hd, f := Head(body), Field(56, CUTTING_ID);
    var fs, more := Opening(|Texts(body)|), hd[5..];
    CuttingId();
    OpeningPlain(|Texts(body)|);
    var tail := Text(Field(10, Pad3(CheckSum(Texts(hd)))));
    assert hd == fs + ([f] + more);
    AnswerTexts(fs, f, more, tail);
    FirstCut(fs, f, Texts(more) + tail);
    AnswerTags(|Texts(body)|, f);
  }

  lemma {:induction false} AnswerTags(length: nat, f: Field)
    requires f.tag == 56
    ensures var tags := Fold(Opening(length) + [f], map[]);
            35 in tags && tags[35] == "A" && 10 !in tags && 52 !in tags && 108 !in tags
  {
    hide Dec, Fold;
    var fs := Opening(length) + [f];
    FoldKeeps(fs, map[]);
    assert fs[2] == Field(35, "A");
    assert forall g :: g in fs ==> g == fs[0] || g == fs[1] || g == fs[2] || g == fs[3] || g == fs[4];
  }

  /** Any number of messages sent one after the other are received one by one. */
  lemma {:induction false} StreamRoundTrip(bodies: seq<seq<Field>>)
    requires forall b :: b in bodies ==> AllPlain(b) && AllFreeOfSoh(b)
    ensures Frames(Stream(bodies)) == Framing(Messages(bodies), "")
  {
    hide AllPlain, AllFreeOfSoh, Message;
    if bodies == [] {
    } else {
      assert bodies[0] in bodies;
      StreamRoundTrip(bodies[1..]);
      RoundTrip(bodies[0], Stream(bodies[1..]));
    }
  }

  function Messages(bodies: seq<seq<Field>>): seq<string> {
    if bodies == [] then [] else [Message(bodies[0])] + Messages(bodies[1..])
  }

  function Stream(bodies: seq<seq<Field>>): string {
    if bodies == [] then "" else Message(bodies[0]) + Stream(bodies[1..])
  }

  /** Messages of the types logon, heartbeat, order, logout, order, each with the fields of its sender. */
  function Conversation(id: string): seq<seq<Field>> {
    [[Field(35, "A"), Field(49, id)], [Field(35, "0"), Field(49, id)], [Field(35, "D"), Field(49, id)],
     [Field(35, "5"), Field(49, id)], [Field(35, "D"), Field(49, id)]]
  }

  /** However it is cut into chunks, the heartbeat does not end the session, the logout does: the first four
      messages are handled, the fifth is not. */
  lemma {:induction false} LogoutEndsSession(r: Receiver, id: string)
    requires Plain(Field(49, id)) && FreeOfSoh(id)
    requires r.Valid() && r.received == Stream(Conversation(id))
    ensures r.closed && |r.handled| == 4
    ensures forall k :: 0 <= k < 4 ==> {35, 49} <= r.handled[k].Keys && r.handled[k][49] == id
    ensures r.handled[0][35] == "A" && r.handled[1][35] == "0" && r.handled[2][35] == "D" && r.handled[3][35] == "5"
  {
    hide Frames, Tags, AllTags, Message, Messages, Stream, Plain, FreeOfSoh, Fold;
    var bodies := Conversation(id);
    forall b | b in bodies ensures AllPlain(b) && AllFreeOfSoh(b) { TypedPlain(b, id); }
    StreamRoundTrip(bodies);
    MessagesTags(bodies);
    var all := AllTags(Messages(bodies));
    forall k | 0 <= k < 5
      ensures 35 in all[k] && 49 in all[k] && all[k][35] == bodies[k][0].val && all[k][49] == id
    {
      assert bodies[k] in bodies && bodies[k][0] in bodies[k];
      assert bodies[k] == [Field(35, bodies[k][0].val), Field(49, id)];
      TypedTags(bodies[k][0].val, id);
    }
    SessionEnds(r);
    assert all[3][35] == "5" && all[0][35] == "A" && all[1][35] == "0" && all[2][35] == "D";
    assert forall i :: 0 <= i < 3 ==> all[i][35] != "5";
    assert r.handled == all[..3 + 1];
  }

  lemma {:induction false} TypedPlain(b: seq<Field>, id: string)
    requires b in Conversation(id) && Plain(Field(49, id)) && FreeOfSoh(id)
    ensures AllPlain(b) && AllFreeOfSoh(b)
  {
    hide Plain, FreeOfSoh;
    ShortPlain(b[0]);
    assert b == [b[0], Field(49, id)];
  }

  lemma {:induction false} MessagesTags(bodies: seq<seq<Field>>)
    ensures |AllTags(Messages(bodies))| == |bodies|
    ensures forall k :: 0 <= k < |bodies| ==> AllTags(Messages(bodies))[k] == Tags(Message(bodies[k]))
  {
    hide Tags, Message;
    if bodies == [] {
    } else {
      MessagesTags(bodies[1..]);
      assert Messages(bodies)[1..] == Messages(bodies[1..]);
    }
  }

  lemma {:induction false} TypedTags(t: string, id: string)
    requires FreeOfSoh(t) && FreeOfSoh(id)
    ensures var tags := Tags(Message([Field(35, t), Field(49, id)]));
            35 in tags && tags[35] == t && 49 in tags && tags[49] == id
  {
    hide Dec, Tags, Message, Fold, CheckSum, FreeOfSoh, Texts;
    var body := [Field(35, t), Field(49, id)];
    ReadBack(body);
    var all := Sent(body);
    assert |all| == 5 && all[0].tag == 8 && all[1].tag == 9 && all[4].tag == 10;
    assert all[2] == body[0] && all[3] == body[1];
    FoldKeeps(all, map[]);
  }

  // ----- Standard header and trailer ---------------------------------------------------------------------------

  /** Where the body starts in a raw message: behind the second delimiter. */
  function BodyStart(raw: string): nat {
    var a := FindChar(raw, SOH, 0);
    if a == |raw| then |raw| else FindChar(raw, SOH, a + 1) + 1
  }

  /** FIX 4.4 Volume 2, standard message header and trailer: BodyLength(9) counts the bytes from
      behind its own delimiter to in front of the CheckSum(10) field; CheckSum(10) is the sum of
      all bytes in front of itself, modulo 256, in three digits. */
  lemma {:induction false} CountsMeetStandard(body: seq<Field>)
    requires AllPlain(body) && AllFreeOfSoh(body) && DistinctTags(Sent(body))
    ensures var m := Message(body);
            var trailer := FindTrailer(m, 0);
            && BodyStart(m) <= trailer < |m|
            && 9 in Tags(m) && Atoi(Tags(m)[9]) == trailer - BodyStart(m)
            && 10 in Tags(m) && |Tags(m)[10]| == 3 && Atoi(Tags(m)[10]) == ByteSum(m[..trailer]) % 256
  {
    hide Text, AllPlain, AllFreeOfSoh, Atoi, Tags, BodyStart, Texts, HoldsExactly, Frames, DistinctTags;
    var h := Texts(Head(body));
    var cs := Pad3(CheckSum(h));
    RoundTrip(body, "");
    HeadPlain(body);
    TrailerPosition(Head(body), cs);
    TrailerText(cs);
    assert Message(body)[..|h|] == h;
    HeldAt(Tags(Message(body)), Sent(body), 1);
    HeldAt(Tags(Message(body)), Sent(body), |Head(body)|);
    assert Sent(body)[1] == Field(9, Dec(|Texts(body)|)) && Sent(body)[|Head(body)|] == Field(10, cs);
    AtoiDec(|Texts(body)|);
    AtoiPad3(CheckSum(h));
    HeadText(body);
    var first, second := Field(8, "FIX.4.4"), Field(9, Dec(|Texts(body)|));
    DigitsPlain(second.val);
    TextDelimited(first);
    TextDelimited(second);
    HeadStart(Text(first), Text(second), Texts(body) + Text(Field(10, cs)));
    assert Message(body) == Text(first) + Text(second) + (Texts(body) + Text(Field(10, cs)));
  }

  lemma {:induction false} TrailerPosition(fs: seq<Field>, cs: string)
    requires AllPlain(fs) && AllFreeOfSoh(fs)
    ensures FindTrailer(Texts(fs) + Text(Field(10, cs)), 0) == |Texts(fs)|
  {
    hide AllPlain, AllFreeOfSoh, Text;
    var a, b := Texts(fs), Text(Field(10, cs));
    TrailerText(cs);
    forall i | 0 <= i < |a| ensures !TrailerAt(a + b, i) { NoTrailerIn(fs, b, i); }
    assert forall k :: 0 <= k < |b| ==> (a + b)[|a| + k] == b[k];
    assert TrailerAt(a + b, |a|);
  }

  /** One delimiter, at the end. */
  ghost predicate Delimited(s: string) {
    s != "" && s[|s| - 1] == SOH && forall k :: 0 <= k < |s| - 1 ==> s[k] != SOH
  }

  lemma {:induction false} TextDelimited(f: Field)
    requires FreeOfSoh(f.val)
    ensures Delimited(Text(f))
  {
    hide Text, Dec;
    FieldBytes(f, "");
    var t, n := Text(f), |Dec(f.tag)|;
    assert t + "" == t;
    forall k | 0 <= k < |t| - 1 ensures t[k] != SOH {
      if k < n { assert IsDigit(t[k]); } else if k > n { assert t[k] == f.val[k - n - 1]; }
    }
  }

  lemma {:induction false} HeadStart(first: string, second: string, rest: string)
    requires Delimited(first) && Delimited(second)
    ensures BodyStart(first + second + rest) == |first| + |second|
  {
    var m, n := first + second + rest, |first|;
    assert forall k :: 0 <= k < n ==> m[k] == first[k];
    assert forall k :: 0 <= k < |second| ==> m[n + k] == second[k];
    FoundChar(m, SOH, 0, n - 1);
    forall k | n <= k < n + |second| - 1 ensures m[k] != SOH { assert m[k] == second[k - n]; }
    FoundChar(m, SOH, n, n + |second| - 1);
  }
}
