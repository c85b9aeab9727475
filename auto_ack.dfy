/**
 * The autoACK plugin: on a received frame it decides whether to answer
 * with a short chat frame acknowledging how many bytes arrived, and never
 * answers an acknowledgement.
 */
module AutoAck {
  import opened Wrappers
  import opened Seqs
  import opened Utf8
  import opened Text
  import opened Headers

  /** The payload prefix that marks an acknowledgement. */
  const AckTag: string := "autoACKed "

  /** The header of an acknowledgement: a chat frame from us to the sender. */
  function AckHeader(our: string, sender: string): string {
    our + ":chat:0.1:" + sender + ":BEGIN:"
  }

  /** The payload of an acknowledgement of `n` bytes. */
  function AckPayload(n: nat): string {
    AckTag + Decimal(n) + " bytes:END:"
  }

  /** The whole acknowledgement text, as the f-string builds it. */
  function AckText(our: string, sender: string, n: nat): string {
    our + ":chat:0.1:" + sender + ":BEGIN:autoACKed " + Decimal(n) + " bytes:END:"
  }

  datatype Outcome = Ignored | Raised | Reply(ack: seq<byte>)

  /**
   * `on_payload_recieved`. `header` is None for a frame without one;
   * `callsign` is our station's callsign. Python raises when the header has
   * fewer than four fields or its first field is not UTF-8.
   */
  function OnPayloadReceived(enabled: bool, replyToAll: bool, header: Option<seq<byte>>, payload: seq<byte>, callsign: string): (r: Outcome)
    ensures !enabled ==> r == Ignored
    ensures header.None? || header.value == [] ==> r == Ignored
    ensures StartsWith(payload, Encode(AckTag)) ==> r == Ignored
    ensures r.Reply? ==> header.Some? && |Split(header.value, Colon)| >= 4 && Decode(Split(header.value, Colon)[0]).Some?
    ensures r.Reply? ==> IsInfix(Split(header.value, Colon)[3], Encode(callsign)) || replyToAll
    ensures r.Reply? ==> r.ack == Encode(AckText(callsign, Decode(Split(header.value, Colon)[0]).value, |payload|))
  {
    TagWithinTen(payload);
    if !enabled then Ignored
    else if header.None? || header.value == [] then Ignored
    else if IsInfix(Slice(payload, 0, 10), Encode(AckTag)) then Ignored
    else
      var fields := Split(header.value, Colon);
      if |fields| < 4 then Raised
      else if !(IsInfix(fields[3], Encode(callsign)) || replyToAll) then Ignored
      else
        match Decode(fields[0])
        case None => Raised
        case Some(sender) => Reply(Encode(AckText(callsign, sender, |payload|)))
  }

  /** Calls on the transport that follow the decision. */
  datatype TransportCall = AppendBytesToBuffer(data: seq<byte>) | TransmitBuffer

  /** A reply is appended to the buffer, then transmission is requested, once each. */
  function TransportCalls(r: Outcome): (calls: seq<TransportCall>)
    ensures r.Reply? ==> |calls| == 2 && calls[0] == AppendBytesToBuffer(r.ack) && calls[1] == TransmitBuffer
    ensures !r.Reply? ==> calls == []
  {
    if r.Reply? then [AppendBytesToBuffer(r.ack), TransmitBuffer] else []
  }

  /** `b"autoACKed " in payload[:10]` holds exactly when the payload starts with it. */
  lemma TagWithinTen(payload: seq<byte>)
    ensures IsInfix(Slice(payload, 0, 10), Encode(AckTag)) <==> StartsWith(payload, Encode(AckTag))
  {
    var tag := Encode(AckTag);
    assert |tag| == 10;
    var head := Slice(payload, 0, 10);
    IsInfixAt(head, tag);
    if IsInfix(head, tag) {
      var i :| OccursAt(head, tag, i);
      assert |head| == 10 && i == 0 && head == payload[..10];
    }
    if StartsWith(payload, tag) {
      assert head == payload[..10];
      assert OccursAt(head, tag, 0);
    }
  }

  /** The reply is produced exactly when our callsign occurs in the recipients field, or replies to everyone are on. */
  lemma ReplyDecision(replyToAll: bool, header: seq<byte>, payload: seq<byte>, callsign: string)
    requires header != [] && !StartsWith(payload, Encode(AckTag))
    requires |Split(header, Colon)| >= 4 && Decode(Split(header, Colon)[0]).Some?
    ensures OnPayloadReceived(true, replyToAll, Some(header), payload, callsign).Reply?
      <==> IsInfix(Split(header, Colon)[3], Encode(callsign)) || replyToAll
  {
    TagWithinTen(payload);
  }

  /** The acknowledgement is its header followed by its payload. */
  lemma AckParts(our: string, sender: string, n: nat)
    ensures AckText(our, sender, n) == AckHeader(our, sender) + AckPayload(n)
  {
  }

  /** An acknowledgement payload is never acknowledged, whoever receives it and whatever header comes with it. */
  lemma AckIsNeverAcked(enabled: bool, replyToAll: bool, header: Option<seq<byte>>, callsign: string, n: nat)
    ensures OnPayloadReceived(enabled, replyToAll, header, Encode(AckPayload(n)), callsign) == Ignored
  {
    AckPayloadIsTagged(n);
  }

  lemma AckPayloadIsTagged(n: nat)
    ensures StartsWith(Encode(AckPayload(n)), Encode(AckTag))
  {
    EncodedPrefix(AckTag, Decimal(n), " bytes:END:");
  }

  /** The encoding of a text starts with the encoding of its first part. */
  lemma EncodedPrefix(t: string, a: string, b: string)
    ensures StartsWith(Encode(t + a + b), Encode(t))
  {
    EncodeAppend(t + a, b);
    EncodeAppend(t, a);
    var e := Encode(t);
    assert (e + Encode(a) + Encode(b))[..|e|] == e;
  }

  /** The acknowledgement, split on `':'`, is a chat frame version 0.1 from us, addressed to the sender. */
  lemma AckFields(our: string, sender: string, n: nat)
    requires ':' !in our && ':' !in sender
    ensures var fields := Split(Encode(AckText(our, sender, n)), Colon);
      |fields| == 8 && fields[0] == Encode(our) && fields[1] == Encode("chat") && fields[2] == Encode("0.1")
      && fields[3] == Encode(sender) && fields[4] == Encode("BEGIN")
  {
    var parts := [our, "chat", "0.1", sender, "BEGIN", AckTag + Decimal(n) + " bytes", "END", ""];
    AckJoin(our, sender, n);
    PartsHaveNoColon(our, sender, n);
    SplitHeader(parts);
  }

  lemma PartsHaveNoColon(our: string, sender: string, n: nat)
    requires ':' !in our && ':' !in sender
    ensures var parts := [our, "chat", "0.1", sender, "BEGIN", AckTag + Decimal(n) + " bytes", "END", ""];
      forall k :: 0 <= k < |parts| ==> ':' !in parts[k]
  {
    DecimalHasNoSeparator(n);
    var body := AckTag + Decimal(n) + " bytes";
    assert ':' !in body by {
      assert body == AckTag + (Decimal(n) + " bytes");
    }
  }

  lemma AckJoin(our: string, sender: string, n: nat)
    ensures AckText(our, sender, n) == Join([our, "chat", "0.1", sender, "BEGIN", AckTag + Decimal(n) + " bytes", "END", ""], ':')
  {
    var body := AckTag + Decimal(n) + " bytes";
    var front := [our, "chat", "0.1", sender];
    var back := ["BEGIN", body, "END", ""];
    JoinAppend(front, back, ':');
    assert front + back == [our, "chat", "0.1", sender, "BEGIN", body, "END", ""];
    FrontJoin(our, sender);
    BackJoin(body);
    AckTextParts(our, sender, Decimal(n));
  }

  lemma FrontJoin(our: string, sender: string)
    ensures Join([our, "chat", "0.1", sender], ':') == our + ":chat:0.1:" + sender
  {
    assert [our, "chat", "0.1", sender][1..] == ["chat", "0.1", sender];
    assert ["chat", "0.1", sender][1..] == ["0.1", sender];
    assert ["0.1", sender][1..] == [sender];
    assert Join([sender], ':') == sender;
    assert Join(["0.1", sender], ':') == "0.1" + [':'] + sender;
    assert Join(["chat", "0.1", sender], ':') == "chat" + [':'] + ("0.1" + [':'] + sender);
    assert Join([our, "chat", "0.1", sender], ':') == our + [':'] + ("chat" + [':'] + ("0.1" + [':'] + sender));
    assert ":chat:0.1:" == [':'] + "chat" + [':'] + "0.1" + [':'];
  }

  lemma BackJoin(body: string)
    ensures Join(["BEGIN", body, "END", ""], ':') == "BEGIN:" + body + ":END:"
  {
    assert ["BEGIN", body, "END", ""][1..] == [body, "END", ""];
    assert [body, "END", ""][1..] == ["END", ""];
    assert ["END", ""][1..] == [""];
    assert Join([""], ':') == "";
    assert Join(["END", ""], ':') == "END" + [':'] + "";
    assert Join([body, "END", ""], ':') == body + [':'] + ("END" + [':'] + "");
    assert Join(["BEGIN", body, "END", ""], ':') == "BEGIN" + [':'] + (body + [':'] + ("END" + [':'] + ""));
    assert "BEGIN:" == "BEGIN" + [':'] && ":END:" == [':'] + "END" + [':'] + "";
  }

  lemma AckTextParts(our: string, sender: string, d: string)
    ensures our + ":chat:0.1:" + sender + ":BEGIN:autoACKed " + d + " bytes:END:"
      == (our + ":chat:0.1:" + sender) + [':'] + ("BEGIN:" + (AckTag + d + " bytes") + ":END:")
  {
    assert ":BEGIN:autoACKed " == [':'] + "BEGIN:" + AckTag;
    assert " bytes:END:" == " bytes" + ":END:";
  }
}
