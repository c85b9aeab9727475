/**
 * The colon-delimited header that plugins put in front of their data,
 * `SENDER:PLUGIN:VERSION:RECIPIENTS:[fields:]BEGIN:`, built as text and
 * sent as UTF-8, and read back with `split(b':')`.
 */
module Headers {
  import opened Seqs
  import opened Utf8

  const Colon: byte := 0x3A

  /** Each field's UTF-8 encoding. */
  function EncodeAll(fields: seq<string>): (r: seq<seq<byte>>)
    ensures |r| == |fields| && forall k :: 0 <= k < |fields| ==> r[k] == Encode(fields[k])
  {
    if fields == [] then [] else [Encode(fields[0])] + EncodeAll(fields[1..])
  }

  /** A character other than `':'` never puts the colon byte into its encoding. */
  lemma {:induction false} NoColonInEncoding(s: string)
    requires ':' !in s
    ensures Colon !in Encode(s)
  {
    if s != [] {
      assert s[0] != ':';
      var e := EncodeChar(s[0]);
      assert forall k :: 0 <= k < |e| ==> e[k] != Colon;
      assert forall c :: c in s[1..] ==> c in s;
      NoColonInEncoding(s[1..]);
    }
  }

  /** Encoding text joined with `':'` joins the encodings with the colon byte. */
  lemma {:induction false} EncodeJoin(fields: seq<string>)
    requires |fields| >= 1
    ensures Encode(Join(fields, ':')) == Join(EncodeAll(fields), Colon)
  {
    if |fields| > 1 {
      EncodeJoin(fields[1..]);
      assert EncodeAll(fields)[1..] == EncodeAll(fields[1..]);
      EncodeAppend(fields[0] + [':'], Join(fields[1..], ':'));
      EncodeAppend(fields[0], [':']);
      assert Encode([':']) == [Colon];
    }
  }

  /** A header built from fields free of `':'` splits back into exactly those fields. */
  lemma SplitHeader(fields: seq<string>)
    requires |fields| >= 1
    requires forall k :: 0 <= k < |fields| ==> ':' !in fields[k]
    ensures Split(Encode(Join(fields, ':')), Colon) == EncodeAll(fields)
  {
    EncodeJoin(fields);
    forall k | 0 <= k < |fields| ensures Colon !in EncodeAll(fields)[k] {
      NoColonInEncoding(fields[k]);
    }
    SplitJoin(EncodeAll(fields), Colon);
  }

  /** Appending one more field to a join. */
  lemma {:induction false} JoinSnoc(fields: seq<string>, last: string)
    requires |fields| >= 1
    ensures Join(fields + [last], ':') == Join(fields, ':') + ":" + last
  {
    if |fields| > 1 {
      JoinSnoc(fields[1..], last);
      assert (fields + [last])[1..] == fields[1..] + [last];
    } else {
      assert (fields + [last])[1..] == [last];
    }
  }

  /** Four fields joined with `':'`. */
  lemma Join4(a: string, b: string, c: string, d: string)
    ensures Join([a, b, c, d], ':') == a + ":" + b + ":" + c + ":" + d
  {
    assert [a, b, c, d][1..] == [b, c, d] && [b, c, d][1..] == [c, d] && [c, d][1..] == [d];
    assert Join([c, d], ':') == c + ":" + d;
    assert Join([b, c, d], ':') == b + ":" + (c + ":" + d);
  }

  /** Three fields joined with `':'`. */
  lemma Join3(a: string, b: string, c: string)
    ensures Join([a, b, c], ':') == a + ":" + b + ":" + c
  {
    assert [a, b, c][1..] == [b, c] && [b, c][1..] == [c];
    assert Join([b, c], ':') == b + ":" + c;
  }

  /** Eight fields joined with `':'`. */
  lemma Join8(a: string, b: string, c: string, d: string, e: string, f: string, g: string, h: string)
    ensures Join([a, b, c, d, e, f, g, h], ':') == a + ":" + b + ":" + c + ":" + d + ":" + e + ":" + f + ":" + g + ":" + h
  {
    JoinAppend([a, b, c, d], [e, f, g, h], ':');
    assert [a, b, c, d] + [e, f, g, h] == [a, b, c, d, e, f, g, h];
    Join4(a, b, c, d);
    Join4(e, f, g, h);
  }

  /** A header whose fourth field holds one `':'` splits into eight fields, the fourth cut in two. */
  lemma SplitCutHeader(a: string, b: string, c: string, d1: string, d2: string, e: string, f: string, g: string)
    requires ':' !in a && ':' !in b && ':' !in c && ':' !in d1
    requires ':' !in d2 && ':' !in e && ':' !in f && ':' !in g
    ensures Split(Encode(Join([a, b, c, d1 + ":" + d2, e, f, g], ':')), Colon)
         == EncodeAll([a, b, c, d1, d2, e, f, g])
  {
    var parts := [a, b, c, d1, d2, e, f, g];
    JoinCutField([a, b, c], d1, d2, [e, f, g], ':');
    assert [a, b, c] + [d1 + ":" + d2] + [e, f, g] == [a, b, c, d1 + ":" + d2, e, f, g];
    assert [a, b, c] + [d1, d2] + [e, f, g] == parts;
    assert forall k :: 0 <= k < |parts| ==> ':' !in parts[k];
    SplitHeader(parts);
  }
}
