/** The relay error taxonomy. The source's `RelayError` base class with its
    three subclasses becomes one closed datatype: every value is a relay
    error, and the variant says which subclass was raised. */
module Exceptions {
  import Format

  datatype RelayError =
    | DeviceNotFound(vendorId: int, productId: int)
    | DeviceConnection(message: string)
    | InvalidChannel(channel: int, maxChannels: int)
  {
    /** What `str(exc)` gives for the error: a DeviceNotFound or InvalidChannel
        message starts with the words that name the error and ends with the
        second id or with a full stop; a DeviceConnection message is the text
        it was raised with. */
    function Message(): (s: string)
      ensures DeviceNotFound? ==> |s| >= 47 && s[..27] == "Device not found: vendor=0x"
      ensures InvalidChannel? ==> |s| >= 43 && s[..16] == "Invalid channel " && s[|s| - 1] == '.'
      ensures DeviceConnection? ==> s == message
    {
      match this
      case DeviceNotFound(v, p) =>
        "Device not found: vendor=0x" + Format.Hex04(v) + ", product=0x" + Format.Hex04(p)
      case DeviceConnection(m) => m
      case InvalidChannel(c, n) =>
        "Invalid channel " + Format.IntToString(c) + ". Must be between 1 and "
        + Format.IntToString(n) + "."
    }
  }

  /** A DeviceConnection error carries exactly the message it was raised with. */
  lemma ConnectionMessageIsVerbatim(message: string)
    ensures DeviceConnection(message).Message() == message
  {
  }

  /** A DeviceNotFound message shows each id as `0x` and at least four
      upper-case, zero-padded hexadecimal digits that denote the id. */
  lemma NotFoundMessageShowsIds(vendorId: nat, productId: nat)
    ensures exists v, p ::
      && DeviceNotFound(vendorId, productId).Message()
         == "Device not found: vendor=0x" + v + ", product=0x" + p
      && |v| >= 4 && |p| >= 4
      && (vendorId < 0x10000 ==> |v| == 4) && (productId < 0x10000 ==> |p| == 4)
      && (forall i :: 0 <= i < |v| ==> v[i] in Format.HexAlphabet)
      && (forall i :: 0 <= i < |p| ==> p[i] in Format.HexAlphabet)
      && Format.ParseDigits(v, 16) == vendorId && Format.ParseDigits(p, 16) == productId
  {
    Format.Hex04Digits(vendorId);
    Format.Hex04Digits(productId);
    var v, p := Format.Hex04(vendorId), Format.Hex04(productId);
    assert DeviceNotFound(vendorId, productId).Message()
      == "Device not found: vendor=0x" + v + ", product=0x" + p;
  }

  /** An InvalidChannel message names the channel and the maximum, each as a
      decimal numeral, signed exactly when negative, that reads back to the
      stored number. */
  lemma InvalidChannelMessageShowsValues(channel: int, maxChannels: int)
    ensures exists c, n ::
      && InvalidChannel(channel, maxChannels).Message()
         == "Invalid channel " + c + ". Must be between 1 and " + n + "."
      && Format.IsNumeral(c) && Format.IsNumeral(n)
      && (c[0] == '-' <==> channel < 0) && (n[0] == '-' <==> maxChannels < 0)
      && Format.ParseInt(c) == channel && Format.ParseInt(n) == maxChannels
  {
    Format.IntToStringRoundTrip(channel);
    Format.IntToStringRoundTrip(maxChannels);
    var c, n := Format.IntToString(channel), Format.IntToString(maxChannels);
    assert InvalidChannel(channel, maxChannels).Message()
      == "Invalid channel " + c + ". Must be between 1 and " + n + ".";
  }
}
