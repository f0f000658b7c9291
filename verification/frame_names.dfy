/** File names of the frames of a zoom: the frame number is zero-padded to a
    fixed number of digits and substituted for the first `{frame_number}`
    placeholder of the base name (src/whoosh.js, `load_images`). */
module FrameNames {
  import opened Optional
  import opened Decimal

  const Placeholder: string := "{frame_number}"

  /** Up to four zeros are available for padding. */
  const Padding: string := "0000"

  // ---- JavaScript string primitives ---------------------------------------

  /** One-argument `String.prototype.substr(start)`: a negative start counts
      back from the end and is clamped at the beginning; a start past the end
      gives the empty string. The result is always a suffix of `s`. */
  function Substr(s: string, start: int): (r: string)
    ensures |r| == if start >= 0 then (if start <= |s| then |s| - start else 0)
                   else (if -start <= |s| then -start else |s|)
    ensures r == s[|s| - |r|..]
  {
    var from := if start < 0 then (if |s| + start < 0 then 0 else |s| + start)
                else (if start > |s| then |s| else start);
    s[from..]
  }

  predicate OccursAt(s: string, pat: string, j: int) {
    0 <= j && j + |pat| <= |s| && s[j..j + |pat|] == pat
  }

  ghost predicate Contains(s: string, pat: string) {
    exists j :: OccursAt(s, pat, j)
  }

  /** `k` is where `pat` first occurs in `s`. */
  predicate FirstOccurrence(s: string, pat: string, k: int) {
    OccursAt(s, pat, k) && forall j :: 0 <= j < k ==> !OccursAt(s, pat, j)
  }

  /** `String.prototype.indexOf(pat, from)`, with "not found" as `None`. */
  function IndexOfFrom(s: string, pat: string, from: nat): (r: Option<nat>)
    ensures r.Some? ==> from <= r.value && OccursAt(s, pat, r.value)
    ensures r.Some? ==> forall j :: from <= j < r.value ==> !OccursAt(s, pat, j)
    ensures r.None? ==> forall j :: from <= j ==> !OccursAt(s, pat, j)
    decreases |s| - from
  {
    if from + |pat| > |s| then None
    else if s[from..from + |pat|] == pat then Some(from)
    else IndexOfFrom(s, pat, from + 1)
  }

  function IndexOf(s: string, pat: string): (r: Option<nat>)
    ensures r.Some? <==> Contains(s, pat)
    ensures r.Some? ==> FirstOccurrence(s, pat, r.value)
  {
    IndexOfFrom(s, pat, 0)
  }

  /** `s.replace(pat, rep)` with a string pattern: only the first occurrence
      of `pat` is replaced. The `$` substitution patterns of the replacement
      string are not modelled, so `rep` must not contain `$`. */
  function ReplaceFirst(s: string, pat: string, rep: string): (r: string)
    requires '$' !in rep
    ensures !Contains(s, pat) ==> r == s
    ensures forall k {:trigger FirstOccurrence(s, pat, k)} :: FirstOccurrence(s, pat, k) ==>
              && |r| == |s| - |pat| + |rep|
              && r[..k] == s[..k]
              && r[k..k + |rep|] == rep
              && r[k + |rep|..] == s[k + |pat|..]
  {
    match IndexOf(s, pat)
    case None => s
    case Some(k) => s[..k] + rep + s[k + |pat|..]
  }

  /** The replacement can be undone: putting the pattern back where the
      replacement landed restores the original string. */
  lemma ReplaceFirstUndo(s: string, pat: string, rep: string, k: nat)
    requires '$' !in rep && FirstOccurrence(s, pat, k)
    ensures var r := ReplaceFirst(s, pat, rep);
            r[..k] + pat + r[k + |rep|..] == s
  {
    var r := ReplaceFirst(s, pat, rep);
    assert s[k..k + |pat|] == pat;
    assert s == s[..k] + s[k..k + |pat|] + s[k + |pat|..];
  }

  /** Only the first occurrence is replaced: every later occurrence of the
      pattern survives, shifted by the change in length. */
  lemma ReplaceFirstKeepsLater(s: string, pat: string, rep: string, k: nat, j: int)
    requires '$' !in rep && FirstOccurrence(s, pat, k)
    requires j >= k + |pat| && OccursAt(s, pat, j)
    ensures OccursAt(ReplaceFirst(s, pat, rep), pat, j - |pat| + |rep|)
  {
    var r := ReplaceFirst(s, pat, rep);
    var j' := j - |pat| + |rep|;
    var tail := s[k + |pat|..];
    assert r[k + |rep|..] == tail;
    assert r[j'..j' + |pat|] == tail[j - k - |pat|..j - k] by {
      assert r[j'..j' + |pat|] == r[k + |rep|..][j - k - |pat|..j - k];
    }
    assert tail[j - k - |pat|..j - k] == s[j..j + |pat|];
  }

  // ---- the frame number and the frame name --------------------------------

  /** `('0000' + i.toString()).substr(-digits)`: the last `digits` characters
      of the number text padded with four zeros. */
  function FrameNumber(i: int, digits: int): (r: string)
    ensures forall c :: c in r ==> c == '-' || IsDigit(c)
    ensures 1 <= digits <= |Padding| + |IntToString(i)| ==> |r| == digits
    ensures digits > |Padding| + |IntToString(i)| || digits == 0 ==> r == Padding + IntToString(i)
    ensures |IntToString(i)| <= digits <= |Padding| + |IntToString(i)| ==>
              r == Zeros(digits - |IntToString(i)|) + IntToString(i)
    ensures 1 <= digits < |IntToString(i)| ==>
              r == IntToString(i)[|IntToString(i)| - digits..]
  {
    var text := IntToString(i);
    PaddedSuffix(text, digits);
    Substr(Padding + text, -digits)
  }

  lemma PaddedSuffix(text: string, digits: int)
    requires |text| >= 1
    ensures var padded := Padding + text;
            var r := Substr(padded, -digits);
            && (|text| <= digits <= |Padding| + |text| ==> r == Zeros(digits - |text|) + text)
            && (1 <= digits < |text| ==> r == text[|text| - digits..])
  {
    var padded := Padding + text;
    var r := Substr(padded, -digits);
    if |text| <= digits <= |Padding| + |text| {
      var z := digits - |text|;
      assert r == padded[|Padding| - z..];
      assert padded[|Padding| - z..] == Zeros(z) + text;
    }
    if 1 <= digits < |text| {
      assert r == padded[|padded| - digits..];
      assert padded[|padded| - digits..] == text[|text| - digits..];
    }
  }

  /** For a non-negative frame number and at least one digit, the padded text
      denotes the frame number modulo `10^digits`: the number itself when it
      fits, its low-order digits when it does not. */
  lemma FrameNumberValue(i: nat, digits: nat)
    requires digits >= 1
    ensures AllDigits(FrameNumber(i, digits))
    ensures DigitsValue(FrameNumber(i, digits)) == i % Pow10(digits)
  {
    var text := IntToString(i);
    var padded := Padding + text;
    var r := FrameNumber(i, digits);
    assert r == Substr(padded, -(digits as int));
    assert AllDigits(padded) && DigitsValue(padded) == i by {
      assert padded == Zeros(4) + text;
      NatToStringValue(i);
      LeadingZerosValue(4, text);
    }
    if digits <= |padded| {
      assert r == padded[|padded| - digits..];
      SuffixValue(padded, digits);
    } else {
      assert r == padded;
      assert i < Pow10(digits) by {
        CanonicalValueBounds(text);
        NatToStringValue(i);
        Pow10Monotone(|text|, digits);
      }
      ModUnique(i, Pow10(digits), 0, i);
    }
  }

  /** `base_name.replace('{frame_number}', frame_number)`. */
  function FrameName(baseName: string, i: int, digits: int): (r: string)
    ensures !Contains(baseName, Placeholder) ==> r == baseName
    ensures forall k {:trigger FirstOccurrence(baseName, Placeholder, k)} ::
              FirstOccurrence(baseName, Placeholder, k) ==>
                r == baseName[..k] + FrameNumber(i, digits) + baseName[k + |Placeholder|..]
  {
    var number := FrameNumber(i, digits);
    assert '$' !in number;
    ReplaceFirst(baseName, Placeholder, number)
  }

}
