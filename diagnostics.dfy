/** Secret masking for the debug log of src/client.rs: the `mask` helper
    nested in `tc3_sign` and `call_action`, and the masked form of the
    Authorization header that `call_action` logs. */
module Diagnostics {
  import opened Wrappers
  import opened Bytes
  import opened Text
  import opened Headers

  const Keep: nat := 8
  const SignatureMarker: string := "Signature="

  /** `mask`: a value of at most sixteen bytes is hidden completely; a longer
      one keeps its first and last eight bytes around "...". The source slices
      by bytes, so the value is ASCII here (every caller passes hex digits or
      a header value that `to_str` accepted). */
  function Mask(v: string): (r: string)
    requires IsAscii(v)
    ensures |v| <= 2 * Keep ==> r == "***"
    ensures |v| > 2 * Keep ==> |r| == 19 && r[..8] == v[..8] && r[8..11] == "..." && r[11..] == v[|v| - 8..]
  {
    if |v| <= Keep * 2 then "***"
    else v[..Keep] + "..." + v[|v| - Keep..]
  }

  /** At most sixteen characters of the value survive masking, each at the
      same distance from its end of the string as in the value. */
  lemma MaskRevealsAtMost16(v: string)
    requires IsAscii(v)
    ensures |Mask(v)| <= 19
    ensures forall i :: 0 <= i < |Mask(v)| && Mask(v)[i] != '.' && Mask(v)[i] != '*' ==>
      (i < 8 && Mask(v)[i] == v[i]) || (11 <= i && Mask(v)[i] == v[|v| - 19 + i])
  {
  }

  /** Masking leaves a value unchanged exactly when the value already looks
      masked: "***" itself, or 19 characters with "..." in the middle. */
  lemma MaskFixedPoints(v: string)
    requires IsAscii(v)
    ensures Mask(v) == v <==> v == "***" || (|v| == 19 && v[8..11] == "...")
  {
    if |v| == 19 && v[8..11] == "..." {
      assert v == v[..8] + v[8..11] + v[11..];
    }
  }

  /** A 64-character signature is logged as 19 characters, never as itself. */
  lemma MaskedSignature(sig: string)
    requires |sig| == 64 && forall i :: 0 <= i < |sig| ==> IsLowerHex(sig[i])
    ensures IsAscii(sig)
    ensures |Mask(sig)| == 19 && Mask(sig) != sig
  {
  }

  /** The Authorization value as `call_action` logs it: "<missing>" when the
      header is absent or not visible ASCII; otherwise the text after the
      first "Signature=" is masked, or the whole value when there is none. */
  function AuthorizationForLog(headers: map<string, string>): (r: string)
    ensures Lookup(headers, "Authorization").None? ==> r == "<missing>"
  {
    match Lookup(headers, "Authorization")
    case None => "<missing>"
    case Some(v) =>
      if !IsVisibleAscii(v) then "<missing>"
      else
        assert IsAscii(v) by { VisibleIsAscii(v); }
        match SplitOnce(v, SignatureMarker)
        case Some((prefix, sig)) =>
          assert IsAscii(sig) by { AsciiSuffix(v, |v| - |sig|); }
          prefix + SignatureMarker + Mask(sig)
        case None => Mask(v)
  }

  lemma VisibleIsAscii(v: string)
    requires IsVisibleAscii(v)
    ensures IsAscii(v)
  {
  }

  lemma AsciiSuffix(v: string, k: nat)
    requires IsAscii(v) && k <= |v|
    ensures IsAscii(v[k..])
  {
  }

  /** Every '=' in `prefix` that could close a "Signature=" is preceded by
      something else. */
  predicate NoMarkerIn(prefix: string) {
    forall j :: 9 <= j < |prefix| && prefix[j] == '=' ==> prefix[j - 9..j + 1] != SignatureMarker
  }

  lemma NoEarlierMarker(prefix: string, sig: string, k: nat)
    requires NoMarkerIn(prefix) && k < |prefix|
    ensures !OccursAt(prefix + SignatureMarker + sig, SignatureMarker, k)
  {
    var s := prefix + SignatureMarker + sig;
    if k + 10 <= |s| {
      if k + 9 < |prefix| && prefix[k + 9] == '=' {
        assert s[k..k + 10] == prefix[k..k + 10];
      } else if k + 9 < |prefix| {
        assert s[k..k + 10][9] != SignatureMarker[9];
      } else {
        assert s[k + 9] == SignatureMarker[k + 9 - |prefix|];
        assert s[k..k + 10][9] != SignatureMarker[9];
      }
    }
  }

  /** When no '=' in `prefix` closes a "Signature=", the first marker in
      `prefix + "Signature=" + sig` is the one after `prefix`. */
  lemma FirstMarkerAfter(prefix: string, sig: string)
    requires NoMarkerIn(prefix)
    ensures SplitOnce(prefix + SignatureMarker + sig, SignatureMarker) == Some((prefix, sig))
  {
    var s := prefix + SignatureMarker + sig;
    assert s[|prefix|..|prefix| + 10] == SignatureMarker;
    assert OccursAt(s, SignatureMarker, |prefix|);
    var r := SplitOnce(s, SignatureMarker);
    var pre, post := r.value.0, r.value.1;
    assert s[|pre|..|pre| + 10] == SignatureMarker;
    assert OccursAt(s, SignatureMarker, |pre|);
    if |pre| < |prefix| {
      NoEarlierMarker(prefix, sig, |pre|);
    }
    assert |pre| == |prefix|;
    assert pre == s[..|pre|];
    assert post == s[|pre| + 10..];
  }
}
