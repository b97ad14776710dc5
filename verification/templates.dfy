/** The pure helper functions the etcdrest page templates can call:
    `center`, `substr`, `lastval`, `lastvaln` and `replace`. Lengths and
    indices count characters. */
module Templates {
  import opened Wrappers
  import Strings

  /** `center(size, deco, str)`: `str` unchanged when it is longer than
      `size`; otherwise `str` between copies of `deco`, as many on each side
      as half the shortfall, the odd copy going to the right. */
  function Center(size: int, deco: string, str: string): (r: string)
    ensures size < |str| ==> r == str
    ensures size >= |str| ==>
              var left := (size - |str|) / 2;
              var right := size - |str| - left;
              && 0 <= right - left <= 1
              && left + right == size - |str|
              && r == Strings.Repeat(deco, left) + str + Strings.Repeat(deco, right)
  {
    if size < |str| then str
    else
      var pad := (size - |str|) / 2;
      Strings.Repeat(deco, pad) + str + Strings.Repeat(deco, size - |str| - pad)
  }

  /** The centred string is as long as `str` plus one `deco` per missing
      character; with a one-character `deco` that is exactly `size`, and
      `str` sits at offset `(size - |str|) / 2`. */
  lemma CenterLength(size: int, deco: string, str: string)
    requires size >= |str|
    ensures |Center(size, deco, str)| == |str| + (size - |str|) * |deco|
    ensures |deco| == 1 ==> |Center(size, deco, str)| == size
    ensures |deco| == 1 ==>
              Center(size, deco, str)[(size - |str|) / 2..(size - |str|) / 2 + |str|] == str
  {
    var left := (size - |str|) / 2;
    var right := size - |str| - left;
    Strings.RepeatLength(deco, left);
    Strings.RepeatLength(deco, right);
    assert left * |deco| + right * |deco| == (size - |str|) * |deco|;
    var r := Center(size, deco, str);
    if |deco| == 1 {
      assert r == Strings.Repeat(deco, left) + str + Strings.Repeat(deco, right);
      assert r[left..left + |str|] == str;
    }
  }

  /** `substr(s, b, l)`: the slice `s[b:l]`, so `l` is an end index and not a
      length. An index out of range makes the slice panic, which template
      execution reports as an error: None here. */
  function Substr(s: string, b: int, l: int): (r: Option<string>)
    ensures r.Some? <==> 0 <= b <= l <= |s|
    ensures r.Some? ==> |r.value| == l - b && forall i :: 0 <= i < l - b ==> r.value[i] == s[b + i]
  {
    if 0 <= b <= l <= |s| then Some(s[b..l]) else None
  }

  /** Adjacent slices concatenate, and the full slice is the string. */
  lemma SubstrJoin(s: string, b: int, m: int, l: int)
    requires 0 <= b <= m <= l <= |s|
    ensures Substr(s, b, m).value + Substr(s, m, l).value == Substr(s, b, l).value
    ensures Substr(s, 0, |s|) == Some(s)
  {
    assert s[b..m] + s[m..l] == s[b..l];
    assert s[0..|s|] == s;
  }

  /** The last non-empty string of a list, or "" when there is none. */
  function LastVal(l: seq<string>): (r: string)
    ensures r == "" <==> forall i :: 0 <= i < |l| ==> l[i] == ""
    ensures r != "" ==> exists i :: 0 <= i < |l| && l[i] == r && forall j :: i < j < |l| ==> l[j] == ""
    decreases |l|
  {
    if |l| == 0 then ""
    else if l[|l| - 1] != "" then l[|l| - 1]
    else
      var init := l[..|l| - 1];
      var r := LastVal(init);
      assert forall i :: 0 <= i < |init| ==> init[i] == l[i];
      assert r != "" ==> exists i :: 0 <= i < |l| && l[i] == r && forall j :: i < j < |l| ==> l[j] == "" by {
        if r != "" {
          var i :| 0 <= i < |init| && init[i] == r && forall j :: i < j < |init| ==> init[j] == "";
          assert l[i] == r && forall j :: i < j < |l| ==> l[j] == "";
        }
      }
      r
  }

  /** `lastval`: scans from the end for the first non-empty element. */
  method LastValScan(l: seq<string>) returns (r: string)
    ensures r == LastVal(l)
    ensures r != "" ==> r in l
  {
    var i := |l| - 1;
    while i >= 0
      invariant -1 <= i < |l|
      invariant forall j :: i < j < |l| ==> l[j] == ""
      decreases i + 1
    {
      if l[i] != "" {
        LastValIsLast(l, i);
        return l[i];
      }
      i := i - 1;
    }
    return "";
  }

  /** A non-empty element followed only by empty ones is the last value. */
  lemma LastValIsLast(l: seq<string>, i: int)
    requires 0 <= i < |l| && l[i] != ""
    requires forall j :: i < j < |l| ==> l[j] == ""
    ensures LastVal(l) == l[i]
  {
    var r := LastVal(l);
    assert r != "";
    var i' :| 0 <= i' < |l| && l[i'] == r && forall j :: i' < j < |l| ==> l[j] == "";
  }

  /** `lastvaln(xs...)`: the variadic form, the same as `lastval(xs)`. */
  function LastValN(xs: seq<string>): (r: string)
    ensures r == LastVal(xs)
  {
    LastVal(xs)
  }

  /** `replace(old, new, str)`: every non-overlapping occurrence of `old` in
      `str`, left to right, becomes `new`. Note the argument order: the
      subject string comes last. */
  function ReplaceAll(pat: string, rep: string, str: string): (r: string)
    ensures pat != [] && Strings.IndexOf(str, pat) == -1 ==> r == str
    ensures pat == rep ==> r == str
    ensures pat != [] && Strings.IndexOf(str, pat) >= 0 ==>
              var i := Strings.IndexOf(str, pat);
              r == str[..i] + rep + ReplaceAll(pat, rep, str[i + |pat|..])
    decreases |str|
  {
    Strings.ReplaceSelf(str, pat, -1);
    if pat != [] then
      Strings.ReplaceStep(str, pat, rep, -1);
      Strings.Replace(str, pat, rep, -1)
    else
      Strings.Replace(str, pat, rep, -1)
  }
}
