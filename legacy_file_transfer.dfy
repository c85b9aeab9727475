/**
 * The older file-transfer plugin: its header `SENDER:FileXfr:0.1:PATH:SIZE:BEGIN:`
 * carries the full path of the chosen file and the frame has no footer;
 * the receiver reads the name from field 3 and the size from field 4.
 */
module LegacyFileTransfer {
  import opened Wrappers
  import opened Seqs
  import opened Utf8
  import opened Text
  import opened Headers

  /** The protocol identifier and version of the plugin's definition. */
  const Protocol: string := "FileXfr"
  const ProtocolVersion: string := "0.1"

  /** The header, as the f-string builds it from the plugin's definition. */
  function LegacyHeader(callsign: string, path: string, size: nat): string {
    callsign + ":" + Protocol + ":" + ProtocolVersion + ":" + path + ":" + Decimal(size) + ":BEGIN:"
  }

  /** `_load_file_to_buffer`: the encoded header followed by the file, no footer. */
  function Outgoing(callsign: string, path: string, file: seq<byte>): (r: seq<byte>)
    ensures r == Encode(LegacyHeader(callsign, path, |file|)) + file
    ensures |r| == |Encode(LegacyHeader(callsign, path, |file|))| + |file|
    ensures r[|r| - |file|..] == file
  {
    var h := Encode(LegacyHeader(callsign, path, |file|));
    assert (h + file)[|h|..] == file;
    h + file
  }

  lemma HeaderIsJoin(callsign: string, path: string, size: nat)
    ensures LegacyHeader(callsign, path, size) == Join([callsign, Protocol, ProtocolVersion, path, Decimal(size), "BEGIN", ""], ':')
  {
    var d := Decimal(size);
    var front := [callsign, Protocol, ProtocolVersion, path];
    var back := [d, "BEGIN", ""];
    JoinAppend(front, back, ':');
    assert front + back == [callsign, Protocol, ProtocolVersion, path, d, "BEGIN", ""];
    Join4(callsign, Protocol, ProtocolVersion, path);
    Join3(d, "BEGIN", "");
    assert ":BEGIN:" == ":" + "BEGIN" + ":" + "";
  }

  /** What `on_data_received` does with a frame. */
  datatype Receipt =
    | Raised                                  // IndexError: fewer than five header fields
    | Saved(suggestedName: seq<byte>, mismatchReported: bool, data: seq<byte>)

  /**
   * `on_data_received`: the suggested name is header field 3; the size
   * check compares an int with a bytes value, so it always reports a
   * mismatch; the payload is saved either way.
   */
  function OnDataReceived(header: seq<byte>, payload: seq<byte>): (r: Receipt)
    ensures r.Raised? <==> |Split(header, Colon)| < 5
    ensures r.Saved? ==> r.suggestedName == Split(header, Colon)[3] && r.mismatchReported && r.data == payload
  {
    var fields := Split(header, Colon);
    if |fields| < 5 then Raised
    else Saved(fields[3], true, payload)
  }

  /**
   * A path free of `':'` (and a callsign free of it) comes back whole as
   * the suggested name, and the size field reads back as the file's length.
   */
  lemma PathWithoutColonRoundTrips(callsign: string, path: string, file: seq<byte>)
    requires ':' !in callsign && ':' !in path
    ensures var fields := Split(Encode(LegacyHeader(callsign, path, |file|)), Colon);
      && |fields| == 7
      && fields[3] == Encode(path)
      && Decode(fields[4]) == Some(Decimal(|file|))
      && DecimalValue(Decimal(|file|)) == |file|
      && OnDataReceived(Encode(LegacyHeader(callsign, path, |file|)), file) == Saved(Encode(path), true, file)
  {
    var parts := [callsign, Protocol, ProtocolVersion, path, Decimal(|file|), "BEGIN", ""];
    HeaderIsJoin(callsign, path, |file|);
    DecimalHasNoSeparator(|file|);
    SplitHeader(parts);
    DecodeEncode(Decimal(|file|));
    DecimalRoundTrip(|file|);
  }

  /**
   * The frame `Outgoing` sends, cut after its header, is received as the
   * file under its own path when neither the callsign nor the path holds a `':'`.
   */
  lemma OutgoingRoundTrips(callsign: string, path: string, file: seq<byte>)
    requires ':' !in callsign && ':' !in path
    ensures var r := Outgoing(callsign, path, file);
      var h := |r| - |file|;
      OnDataReceived(r[..h], r[h..]) == Saved(Encode(path), true, file)
  {
    var r := Outgoing(callsign, path, file);
    var header := Encode(LegacyHeader(callsign, path, |file|));
    assert r[..|r| - |file|] == header;
    PathWithoutColonRoundTrips(callsign, path, file);
  }

  /**
   * A path holding a `':'`, such as the one after the drive letter in
   * `C:/x`, is cut at it: the receiver suggests only the part before the
   * colon and reads the rest of the path as the size field.
   */
  lemma ColonPathIsCut(callsign: string, drive: string, rest: string, size: nat)
    requires ':' !in callsign && ':' !in drive && ':' !in rest
    ensures var fields := Split(Encode(LegacyHeader(callsign, drive + ":" + rest, size)), Colon);
      && |fields| == 8
      && fields[3] == Encode(drive)
      && fields[4] == Encode(rest)
  {
    CutFields(callsign, drive, rest, size);
  }

  lemma CutFields(callsign: string, drive: string, rest: string, size: nat)
    requires ':' !in callsign && ':' !in drive && ':' !in rest
    ensures Split(Encode(LegacyHeader(callsign, drive + ":" + rest, size)), Colon)
         == EncodeAll([callsign, Protocol, ProtocolVersion, drive, rest, Decimal(size), "BEGIN", ""])
  {
    var path := drive + ":" + rest;
    HeaderIsJoin(callsign, path, size);
    DecimalHasNoSeparator(size);
    SplitCutHeader(callsign, Protocol, ProtocolVersion, drive, rest, Decimal(size), "BEGIN", "");
  }
}
