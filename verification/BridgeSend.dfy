/** The FIX messages of the dashboard's bridge (`_send_fix`, dashboard/app.py:455-473). Its fields
    are a dictionary, modelled as its entries in insertion order. */
module BridgeSend {
  import opened Fix
  import opened FixBuild

  /** `fields[tag] = val`: in place if the tag is there, else at the end. */
  function Put(fields: seq<Field>, tag: nat, val: string): (r: seq<Field>)
    ensures Field(tag, val) in r
    ensures forall f :: f in r ==> f in fields || f == Field(tag, val)
  {
    if fields == [] then [Field(tag, val)]
    else if fields[0].tag == tag then [Field(tag, val)] + fields[1..]
    else [fields[0]] + Put(fields[1..], tag, val)
  }

  lemma {:induction false} PutDistinct(fields: seq<Field>, tag: nat, val: string)
    requires DistinctTags(fields)
    ensures DistinctTags(Put(fields, tag, val))
    ensures forall f :: f in Put(fields, tag, val) <==> f == Field(tag, val) || (f in fields && f.tag != tag)
  {
    if fields == [] {
    } else {
      var f, tl := fields[0], fields[1..];
      assert fields == [f] + tl;
      forall g | g in tl ensures g.tag != f.tag {
        var k :| 0 <= k < |tl| && tl[k] == g;
        assert fields[k + 1] == g;
      }
      if f.tag != tag { PutDistinct(tl, tag, val); }
    }
  }

  predicate Standard(tag: nat) { tag == 8 || tag == 9 || tag == 10 }

  /** The fields that make up the body: begin string, length and checksum are left to the sender. */
  function Carried(fields: seq<Field>): seq<Field> {
    if fields == [] then []
    else (if Standard(fields[0].tag) then [] else [fields[0]]) + Carried(fields[1..])
  }

  /** The body of a message: the dictionary with the sequence number and the time put in. */
  function BridgeBody(fields: seq<Field>, seqNum: nat, time: string): seq<Field> {
    Carried(Put(Put(fields, 34, Dec(seqNum)), 52, time))
  }

  /** Nothing in the fields can be mistaken for a delimiter or the trailer. */
  ghost predicate Clean(fields: seq<Field>) { AllPlain(fields) && AllFreeOfSoh(fields) }

  function Part(f: Field): string { Dec(f.tag) + "=" + f.val }

  function Parts(fields: seq<Field>): seq<string> {
    if fields == [] then [] else [Part(fields[0])] + Parts(fields[1..])
  }

  /** `SOH.join(parts)`. */
  function Join(parts: seq<string>): string {
    if parts == [] then "" else if |parts| == 1 then parts[0] else parts[0] + [SOH] + Join(parts[1..])
  }

  /** Joining and closing with one more delimiter gives every field its delimiter. */
  lemma {:induction false} JoinedTexts(fields: seq<Field>)
    requires fields != []
    ensures Join(Parts(fields)) + [SOH] == Texts(fields)
  {
    hide Part, Text;
    assert Part(fields[0]) + [SOH] == Text(fields[0]) by { Closed(fields[0]); }
    assert Parts(fields)[1..] == Parts(fields[1..]);
    if |fields| == 1 {
      assert fields == [fields[0]];
      TextsOne(fields[0]);
    } else {
      JoinedTexts(fields[1..]);
    }
  }

  lemma {:induction false} Closed(f: Field)
    ensures Part(f) + [SOH] == Text(f)
  {
  }

  lemma {:induction false} CarriedAt(fields: seq<Field>, f: Field)
    requires f in fields && !Standard(f.tag)
    ensures f in Carried(fields)
  {
    if fields[0] == f {
    } else {
      CarriedAt(fields[1..], f);
    }
  }

  lemma {:induction false} CarriedSnoc(fields: seq<Field>, i: nat)
    requires i < |fields|
    ensures Carried(fields[..i + 1]) == Carried(fields[..i]) + (if Standard(fields[i].tag) then [] else [fields[i]])
  {
    if i == 0 {
      assert fields[..1] == [fields[0]] && fields[..0] == [];
    } else {
      CarriedSnoc(fields[1..], i - 1);
      assert fields[..i + 1][1..] == fields[1..][..i] && fields[..i][1..] == fields[1..][..i - 1];
    }
  }

  lemma {:induction false} PartsSnoc(fields: seq<Field>, f: Field)
    ensures Parts(fields + [f]) == Parts(fields) + [Part(f)]
  {
    if fields == [] {
      assert fields + [f] == [f];
    } else {
      assert (fields + [f])[1..] == fields[1..] + [f];
      PartsSnoc(fields[1..], f);
    }
  }

  class Bridge {
    var seqNum: nat
    var sent: seq<string>

    constructor (start: nat)
      ensures seqNum == start && sent == []
    {
      seqNum, sent := start, [];
    }

    /** What goes out is the standard message over the carried fields, exactly as the acceptor
        builds its own, so both directions are read back by the same parser. */
    method SendFix(fields: seq<Field>, time: string)
      modifies this
      ensures seqNum == old(seqNum) + 1
      ensures sent == old(sent) + [Message(BridgeBody(fields, old(seqNum), time))]
    {
      hide Text, Part, Dec, Put, Carried, Pad3, Join, Parts, Texts;
      var all := Put(Put(fields, 34, Dec(seqNum)), 52, time);
      seqNum := seqNum + 1;
      var parts := [];
      CarriedNone();
      assert all[..0] == [];
      for i := 0 to |all|
        invariant seqNum == old(seqNum) + 1 && sent == old(sent)
        invariant parts == Parts(Carried(all[..i]))
      {
        CarriedSnoc(all, i);
        PartsSnoc(Carried(all[..i]), all[i]);
        assert Carried(all[..i]) + [] == Carried(all[..i]);
        if all[i].tag != 8 && all[i].tag != 9 && all[i].tag != 10 {
          parts := parts + [Part(all[i])];
        }
      }
      assert all[..|all|] == all;
      CarriedAt(all, Field(52, time));
      ghost var body := Carried(all);
      JoinedTexts(body);
      HeadText(body);
      var joined := Join(parts);
      var header := Text(Field(8, "FIX.4.4")) + Text(Field(9, Dec(|joined| + 1)));
      var msg := header + joined + [SOH];
      assert msg == header + (joined + [SOH]);
      var checksum := ByteSum(msg) % 256;
      var raw := msg + Text(Field(10, Pad3(checksum)));
      sent := sent + [raw];
    }
  }

  lemma {:induction false} CarriedNone()
    ensures Parts(Carried([])) == []
  {
  }

  // ----- Read back ------------------------------------------------------------------------------

  lemma {:induction false} CarriedDistinct(fields: seq<Field>)
    requires DistinctTags(fields)
    ensures DistinctTags(Carried(fields))
    ensures forall f :: f in Carried(fields) <==> f in fields && !Standard(f.tag)
  {
    if fields == [] {
    } else {
      var f, tl := fields[0], fields[1..];
      forall g | g in tl ensures g.tag != f.tag {
        var k :| 0 <= k < |tl| && tl[k] == g;
        assert fields[k + 1] == g;
      }
      CarriedDistinct(tl);
      assert forall g :: g in fields <==> g == f || g in tl;
    }
  }

  lemma {:induction false} SentDistinct(body: seq<Field>)
    requires DistinctTags(body) && forall f :: f in body ==> !Standard(f.tag)
    ensures DistinctTags(Sent(body))
  {
    hide Texts, Text, CheckSum, Pad3;
    var s := Sent(body);
    assert |s| == |body| + 3;
    forall k | 0 <= k < |s|
        ensures s[k].tag == if k == 0 then 8 else if k == 1 then 9 else if k == |s| - 1 then 10 else body[k - 2].tag {}
    assert forall k :: 0 <= k < |body| ==> body[k] in body;
  }

  /** A receiver reads every field of the dictionary back as it was, the reserved ones apart, along
      with the sequence number and the time. */
  lemma {:induction false} BridgeRoundTrip(fields: seq<Field>, seqNum: nat, time: string)
    requires DistinctTags(fields) && Clean(BridgeBody(fields, seqNum, time))
    ensures var m := Message(BridgeBody(fields, seqNum, time));
            && Frames(m) == Framing([m], "")
            && (forall f :: f in fields && f.tag !in {8, 9, 10, 34, 52} ==> f.tag in Tags(m) && Tags(m)[f.tag] == f.val)
            && 34 in Tags(m) && Tags(m)[34] == Dec(seqNum)
            && 52 in Tags(m) && Tags(m)[52] == time
  {
    hide AllPlain, AllFreeOfSoh, Frames, Tags, Message, Dec;
    assert AllPlain(BridgeBody(fields, seqNum, time)) && AllFreeOfSoh(BridgeBody(fields, seqNum, time));
    var once := Put(fields, 34, Dec(seqNum));
    var all := Put(once, 52, time);
    PutDistinct(fields, 34, Dec(seqNum));
    PutDistinct(once, 52, time);
    CarriedDistinct(all);
    var body := Carried(all);
    SentDistinct(body);
    RoundTrip(body, "");
    assert Message(body) + "" == Message(body);
    assert Frames("") == Framing([], "") by { FramesStep(""); }
    InSent(body);
    assert Field(34, Dec(seqNum)) in body && Field(52, time) in body;
  }

  lemma {:induction false} InSent(body: seq<Field>)
    ensures forall f :: f in body ==> f in Sent(body)
  {
  }
}
