/**
 * The file-transfer plugin: the frame it builds from a chosen file, a
 * header `SENDER:FileXfr:VERSION:RECIPIENTS:NAME:SIZE:BEGIN:`, the file
 * and the `:END:` footer, and the fields it reads from a received header.
 */
module FileTransfer {
  import opened Wrappers
  import opened Seqs
  import opened Utf8
  import opened Text
  import opened Headers
  import Framing

  /** `path.split('/')[-1]`: the file name without its directories. */
  function BaseName(path: string): (r: string)
    ensures '/' !in r && EndsWith(path, r)
  {
    LastFieldIsSuffix(path, '/');
    LastField(path, '/')
  }

  /** The header, as the f-string builds it. */
  function FileHeader(callsign: string, version: string, recipients: string, name: string, size: nat): string {
    callsign + ":FileXfr:" + version + ":" + recipients + ":" + name + ":" + Decimal(size) + ":BEGIN:"
  }

  /**
   * `_load_file_to_buffer` after the file dialog: nothing when the dialog
   * was cancelled (an empty path), otherwise the header, the file and the
   * footer, to be appended to the transport's buffer.
   */
  function Outgoing(callsign: string, version: string, recipients: string, path: string, file: seq<byte>): (r: Option<seq<byte>>)
    ensures path == [] <==> r.None?
    ensures r.Some? ==> r.value == Encode(FileHeader(callsign, version, recipients, BaseName(path), |file|)) + file + Framing.End
  {
    if path == [] then None
    else Some(Encode(FileHeader(callsign, version, recipients, BaseName(path), |file|)) + file + Framing.End)
  }

  /** The fields of the header, in order; the last is the empty text after the final `':'`. */
  function HeaderFields(callsign: string, version: string, recipients: string, name: string, size: nat): seq<string> {
    [callsign, "FileXfr", version, recipients, name, Decimal(size), "BEGIN", ""]
  }

  lemma HeaderIsJoin(callsign: string, version: string, recipients: string, name: string, size: nat)
    ensures FileHeader(callsign, version, recipients, name, size) == Join(HeaderFields(callsign, version, recipients, name, size), ':')
  {
    assert ":FileXfr:" == ":" + "FileXfr" + ":";
    assert ":BEGIN:" == ":" + "BEGIN" + ":" + "";
    HeaderShape(callsign, "FileXfr", version, recipients, name, Decimal(size), "BEGIN");
  }

  /** A header of this shape, over any field texts, is its eight fields joined with `':'`. */
  lemma HeaderShape(c: string, p: string, v: string, r: string, n: string, d: string, b: string)
    ensures c + (":" + p + ":") + v + ":" + r + ":" + n + ":" + d + (":" + b + ":" + "") == Join([c, p, v, r, n, d, b, ""], ':')
  {
    Join8(c, p, v, r, n, d, b, "");
  }

  /** What `on_payload_recieved` does with a frame. */
  datatype Receipt =
    | Raised                                  // IndexError: fewer than six header fields
    | Saved(suggestedName: seq<byte>, mismatchReported: bool, data: seq<byte>)

  /**
   * `on_payload_recieved`: the suggested name is header field 4; the size
   * check compares the payload length, an int, with field 5, a bytes value,
   * so the two are never equal; the payload is saved either way.
   */
  function OnPayloadReceived(header: seq<byte>, payload: seq<byte>): (r: Receipt)
    ensures r.Raised? <==> |Split(header, Colon)| < 6
    ensures r.Saved? ==> r.suggestedName == Split(header, Colon)[4] && r.data == payload
  {
    var fields := Split(header, Colon);
    if |fields| < 6 then Raised
    else Saved(fields[4], true, payload)
  }

  /** The size mismatch is reported for every frame the receiver accepts. */
  lemma MismatchAlwaysReported(header: seq<byte>, payload: seq<byte>)
    requires |Split(header, Colon)| >= 6
    ensures OnPayloadReceived(header, payload) == Saved(Split(header, Colon)[4], true, payload)
  {
  }

  /**
   * When no field holds a `':'`, the receiver finds the name at index 4, the
   * decimal size at index 5 and `BEGIN` at index 6, and suggests the base
   * name the sender put there.
   */
  lemma FieldPositions(callsign: string, version: string, recipients: string, path: string, file: seq<byte>)
    requires path != []
    requires ':' !in callsign && ':' !in version && ':' !in recipients && ':' !in BaseName(path)
    ensures var header := Encode(FileHeader(callsign, version, recipients, BaseName(path), |file|));
      var fields := Split(header, Colon);
      && |fields| == 8
      && fields[4] == Encode(BaseName(path))
      && Decode(fields[5]) == Some(Decimal(|file|))
      && DecimalValue(Decimal(|file|)) == |file|
      && fields[6] == Encode("BEGIN")
      && OnPayloadReceived(header, file + Framing.End).Saved?
      && OnPayloadReceived(header, file + Framing.End).suggestedName == Encode(BaseName(path))
  {
    var parts := HeaderFields(callsign, version, recipients, BaseName(path), |file|);
    HeaderIsJoin(callsign, version, recipients, BaseName(path), |file|);
    DecimalHasNoSeparator(|file|);
    SplitHeader(parts);
    DecodeEncode(Decimal(|file|));
    DecimalRoundTrip(|file|);
  }

  /** The name field never carries a directory: it is the text after the last `'/'`. */
  lemma BaseNameOfPath(dirs: string, name: string)
    requires '/' !in name
    ensures BaseName(dirs + "/" + name) == name
  {
    var path := dirs + "/" + name;
    var r := BaseName(path);
    assert EndsWith(path, r) && '/' !in r;
    assert path[|path| - |name| - 1] == '/';
    LastFieldIsSuffix(path, '/');
    assert forall k :: |path| - |r| <= k < |path| ==> path[k] == r[k - (|path| - |r|)];
    assert forall k :: |path| - |name| <= k < |path| ==> path[k] == name[k - (|path| - |name|)];
    assert r == path[|path| - |name|..] == name;
  }
}
