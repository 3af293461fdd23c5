/** The length prefix of a message: `width` bytes, least significant first. */
module MessageLength {
  import opened Arithmetic

  function Encode(n: nat, width: nat): (s: seq<byte>)
    ensures |s| == width
  {
    if width == 0 then [] else [n % 256] + Encode(n / 256, width - 1)
  }

  function Decode(s: seq<byte>): nat {
    if s == [] then 0 else s[0] + 256 * Decode(s[1..])
  }

  function Range(width: nat): (r: nat)
    ensures r > 0
  {
    if width == 0 then 1 else 256 * Range(width - 1)
  }

  lemma SplitRange(n: nat, r: nat)
    requires r > 0
    ensures 256 * r > 0 && n % (256 * r) == n % 256 + 256 * ((n / 256) % r)
  {
    var q, m := (n / 256) / r, (n / 256) % r;
    calc {
      n;
      256 * (n / 256) + n % 256;
      { assert n / 256 == q * r + m; }
      256 * (q * r + m) + n % 256;
      { assert 256 * (q * r) == q * (256 * r); }
      q * (256 * r) + (256 * m + n % 256);
    }
    DivModUnique(n, 256 * r, q, 256 * m + n % 256);
  }

  /** The prefix keeps a length modulo the range of its type, so exactly the lengths in that range survive. */
  lemma {:induction false} DecodeEncode(n: nat, width: nat)
    ensures Decode(Encode(n, width)) == n % Range(width)
    ensures Decode(Encode(n, width)) == n <==> n < Range(width)
  {
    DecodeIsRemainder(n, width);
    if n < Range(width) {
      DivModUnique(n, Range(width), 0, n);
    }
  }

  lemma {:induction false} DecodeIsRemainder(n: nat, width: nat)
    ensures Decode(Encode(n, width)) == n % Range(width)
  {
    if width > 0 {
      DecodeIsRemainder(n / 256, width - 1);
      SplitRange(n, Range(width - 1));
      assert Encode(n, width)[1..] == Encode(n / 256, width - 1);
    }
  }

  /** A message as it lies in the buffer. */
  function Frame(message: seq<byte>, width: nat): (s: seq<byte>)
    ensures |s| == width + |message|
  {
    Encode(|message|, width) + message
  }

  function Flatten(messages: seq<seq<byte>>, width: nat): seq<byte> {
    if messages == [] then [] else Frame(messages[0], width) + Flatten(messages[1..], width)
  }

  lemma {:induction false} FlattenConcat(a: seq<seq<byte>>, b: seq<seq<byte>>, width: nat)
    ensures Flatten(a + b, width) == Flatten(a, width) + Flatten(b, width)
  {
    if a == [] {
      assert a + b == b;
    } else {
      assert (a + b)[1..] == a[1..] + b;
      FlattenConcat(a[1..], b, width);
    }
  }

  /** What follows the first k messages begins with the frame of message k. */
  lemma FlattenAt(messages: seq<seq<byte>>, k: nat, width: nat)
    requires k < |messages|
    ensures var at := |Flatten(messages[..k], width)|;
            var end := at + width + |messages[k]|;
            && end == |Flatten(messages[..k + 1], width)| <= |Flatten(messages, width)|
            && Flatten(messages, width)[at..end] == Frame(messages[k], width)
            && Flatten(messages, width)[..end] == Flatten(messages[..k + 1], width)
            && Flatten(messages, width)[..at] == Flatten(messages[..k], width)
  {
    var a, b, c := messages[..k], [messages[k]], messages[k + 1..];
    assert messages == a + b + c && messages[..k + 1] == a + b;
    FlattenConcat(a, b, width);
    FlattenConcat(a + b, c, width);
    assert b[1..] == [];
    assert Flatten(b, width) == Frame(messages[k], width) + [];
  }
}
