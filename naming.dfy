/**
 * The file names the server makes up from a timestamp: the name multer stores an
 * upload under, and the path the analysis copies the video to. The timestamp
 * (`Date.now()` in the server) is a parameter.
 */
module Naming {
  import opened Wrappers
  import opened Decimal

  /** `path.join("/tmp", "myVideo")` with the POSIX separator: the directory the analysis copies videos into. */
  const TargetDir: string := "/tmp/myVideo"
  const TargetPrefix: string := TargetDir + "/vid-"
  const TargetSuffix: string := ".mp4"

  /** The stored upload name: timestamp digits, a hyphen, then the client's file name. */
  function StoredFileName(timestamp: nat, originalName: string): (r: string)
    ensures |r| == |DecimalString(timestamp)| + 1 + |originalName|
    ensures r[|r| - |originalName|..] == originalName
    ensures AllDigits(r[..|DecimalString(timestamp)|]) && r[|DecimalString(timestamp)|] == '-'
  {
    DecimalString(timestamp) + "-" + originalName
  }

  /** Where `c` first occurs in `s`, if it does. */
  function FirstIndexOf(s: string, c: char): (r: Option<nat>)
    ensures r.Some? ==> r.value < |s| && s[r.value] == c
    ensures r.Some? ==> forall j :: 0 <= j < r.value ==> s[j] != c
    ensures r.None? <==> c !in s
  {
    if s == [] then None
    else if s[0] == c then Some(0)
    else match FirstIndexOf(s[1..], c)
      case None => None
      case Some(k) => Some(k + 1)
  }

  /** Reads a stored upload name back into its timestamp and original name. */
  function SplitStoredFileName(name: string): Option<(nat, string)> {
    match FirstIndexOf(name, '-')
    case None => None
    case Some(k) =>
      if 0 < k && AllDigits(name[..k]) then Some((ParseDecimal(name[..k]), name[k + 1..]))
      else None
  }

  /** The stored name records both the timestamp and the original name, and they can be read back. */
  lemma StoredFileNameRoundTrip(timestamp: nat, originalName: string)
    ensures SplitStoredFileName(StoredFileName(timestamp, originalName)) == Some((timestamp, originalName))
  {
    var digits := DecimalString(timestamp);
    var name := StoredFileName(timestamp, originalName);
    var k := |digits|;
    assert name[..k] == digits;
    assert name[k + 1..] == originalName;
    assert '-' !in digits by {
      forall i | 0 <= i < |digits| ensures digits[i] != '-' {
        assert IsDigit(digits[i]);
      }
    }
    var found := FirstIndexOf(name, '-');
    assert found == Some(k) by {
      assert found.Some? by { assert name[k] == '-'; }
      assert forall j :: 0 <= j < k ==> name[j] == digits[j];
    }
    ParseDecimalString(timestamp);
  }

  /** Two uploads get the same stored name only with the same timestamp and the same original name. */
  lemma StoredFileNameInjective(t1: nat, n1: string, t2: nat, n2: string)
    ensures StoredFileName(t1, n1) == StoredFileName(t2, n2) <==> t1 == t2 && n1 == n2
  {
    StoredFileNameRoundTrip(t1, n1);
    StoredFileNameRoundTrip(t2, n2);
  }

  /** `path.join(targetDir, "vid-" + timestamp + ".mp4")`: where the analysis copies the video. */
  function TargetPath(timestamp: nat): (r: string)
    ensures |r| == |TargetPrefix| + |DecimalString(timestamp)| + |TargetSuffix|
    ensures r[..|TargetPrefix|] == TargetPrefix && r[|r| - |TargetSuffix|..] == TargetSuffix
  {
    TargetPrefix + DecimalString(timestamp) + TargetSuffix
  }

  /**
   * Analyses that read the clock in different milliseconds copy to different
   * paths, and analyses that read it in the same millisecond copy to the same path.
   */
  lemma TargetPathInjective(t1: nat, t2: nat)
    ensures TargetPath(t1) == TargetPath(t2) <==> t1 == t2
  {
    if TargetPath(t1) == TargetPath(t2) {
      var p1, p2 := TargetPath(t1), TargetPath(t2);
      assert p1[|TargetPrefix|..|p1| - |TargetSuffix|] == DecimalString(t1);
      assert p2[|TargetPrefix|..|p2| - |TargetSuffix|] == DecimalString(t2);
      DecimalStringInjective(t1, t2);
    }
  }
}
