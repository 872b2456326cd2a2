/** The truncated diff text of `collect_diff_evidence` (src/sol_claude_dispatcher/git.py). */
module DiffText {
  import opened Utf8

  datatype DiffText = DiffText(text: Text, truncated: bool, totalBytes: nat)

  function TruncateDiff(raw: Text, maxBytes: nat): DiffText
    requires CodePoints(raw)
  {
    var encoded := Encode(ReplaceSurrogates(raw));
    var truncated := |encoded| > maxBytes;
    DiffText(if truncated then DecodeIgnore(encoded[..maxBytes]) else raw, truncated, |encoded|)
  }

  /** The text kept is the longest prefix whose encoding fits, at most three
      bytes short of the limit; the size recorded is always the full one. */
  lemma TruncationIsLongestPrefix(raw: Text, maxBytes: nat)
    requires Scalars(raw)
    ensures
      var d := TruncateDiff(raw, maxBytes);
      && d.totalBytes == |Encode(raw)| && (d.truncated <==> d.totalBytes > maxBytes)
      && d.text <= raw && |Encode(d.text)| <= maxBytes
      && (forall k :: |d.text| < k <= |raw| ==> |Encode(raw[..k])| > maxBytes)
      && (d.truncated ==> maxBytes - |Encode(d.text)| <= 3)
      && (d.truncated <==> d.text != raw)
  {
    assert ReplaceSurrogates(raw) == raw;
    FitIsLongest(raw, maxBytes);
    assert raw[..|raw|] == raw;
    if |Encode(raw)| > maxBytes {
      DecodeTruncated(raw, maxBytes);
    }
  }

  /** Lone surrogates survive in an untruncated text; truncation turns them into
      question marks. */
  lemma TruncationWithSurrogates(raw: Text, maxBytes: nat)
    requires CodePoints(raw)
    ensures
      var d := TruncateDiff(raw, maxBytes);
      d.text == if d.truncated then TruncateDiff(ReplaceSurrogates(raw), maxBytes).text else raw
  {
    var clean := ReplaceSurrogates(raw);
    assert ReplaceSurrogates(clean) == clean;
  }
}
