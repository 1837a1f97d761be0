/**
 * Checkpoint path naming (src_2/utils.py `save_model`): POSIX `os.path.splitext`,
 * decimal rendering of the epoch number, and insertion of a suffix before the extension.
 */
module Paths {
  import opened Results

  /** Python's `str.rfind` for one character: the last index of `c` in `s`, or -1. */
  function RFind(s: string, c: char): (r: int)
    ensures -1 <= r < |s|
    ensures r >= 0 ==> s[r] == c
    ensures forall k :: r < k < |s| ==> s[k] != c
  {
    if |s| == 0 then -1
    else if s[|s| - 1] == c then |s| - 1
    else RFind(s[..|s| - 1], c)
  }

  /** The postcondition of `RFind` pins its result down. */
  lemma RFindUnique(s: string, c: char, i: int)
    requires -1 <= i < |s|
    requires i >= 0 ==> s[i] == c
    requires forall k :: i < k < |s| ==> s[k] != c
    ensures RFind(s, c) == i
  {
  }

  /** Some character of `p[from..to]` is not a dot. */
  predicate HasNonDot(p: string, from: nat, to: nat)
    requires from <= to <= |p|
  {
    exists k :: from <= k < to && p[k] != '.'
  }

  /** The last dot lies in the last path component, after some non-dot character of it. */
  predicate LastDotStartsExtension(p: string) {
    var sep := RFind(p, '/');
    var dot := RFind(p, '.');
    dot > sep && HasNonDot(p, sep + 1, dot)
  }

  /**
   * `posixpath.splitext`: split at the last dot if it lies in the last path component
   * and that component has a non-dot character before it (leading dots do not start an
   * extension, so ".bashrc" has none).
   */
  function SplitExt(p: string): (r: (string, string))
    ensures r.0 + r.1 == p
    ensures r.1 == [] || r.1[0] == '.'
    ensures forall k :: 0 < k < |r.1| ==> r.1[k] != '.' && r.1[k] != '/'
    ensures r.1 != [] <==> LastDotStartsExtension(p)
    ensures r.1 != [] ==> |r.0| == RFind(p, '.')
  {
    var dotIndex := RFind(p, '.');
    if LastDotStartsExtension(p) then
      assert forall k :: 0 < k < |p[dotIndex..]| ==> p[dotIndex..][k] == p[dotIndex + k];
      (p[..dotIndex], p[dotIndex..])
    else
      (p, [])
  }

  /**
   * Position `i` starts an extension: a dot followed by neither dots nor slashes, with
   * some non-dot character before it in the same path component.
   */
  predicate ExtensionAt(p: string, i: int) {
    && 0 <= i < |p| && p[i] == '.'
    && (forall k :: i < k < |p| ==> p[k] != '.' && p[k] != '/')
    && (exists k :: 0 <= k < i && p[k] != '.' && forall j :: k <= j < i ==> p[j] != '/')
  }

  /** `SplitExt` splits off an extension exactly when one exists, and exactly there. */
  lemma SplitExtCharacterized(p: string)
    ensures SplitExt(p).1 != [] <==> exists i :: ExtensionAt(p, i)
    ensures forall i :: ExtensionAt(p, i) ==> SplitExt(p) == (p[..i], p[i..])
  {
    var sep := RFind(p, '/');
    var dot := RFind(p, '.');
    if SplitExt(p).1 != [] {
      var k :| sep + 1 <= k < dot && p[k] != '.';
      assert forall j :: k <= j < dot ==> p[j] != '/';
      assert ExtensionAt(p, dot);
    }
    forall i | ExtensionAt(p, i)
      ensures SplitExt(p) == (p[..i], p[i..])
    {
      RFindUnique(p, '.', i);
      var k :| 0 <= k < i && p[k] != '.' && forall j :: k <= j < i ==> p[j] != '/';
      assert sep < k;
      assert HasNonDot(p, sep + 1, dot);
    }
  }

  predicate IsDigit(ch: char) {
    '0' <= ch <= '9'
  }

  predicate AllDigits(s: string) {
    forall k :: 0 <= k < |s| ==> IsDigit(s[k])
  }

  function DigitChar(d: nat): (ch: char)
    requires d < 10
    ensures IsDigit(ch)
  {
    "0123456789"[d]
  }

  function DigitValue(ch: char): (d: nat)
    requires IsDigit(ch)
    ensures d < 10
  {
    (ch - '0') as nat
  }

  lemma DigitRoundTrip(d: nat)
    requires d < 10
    ensures DigitValue(DigitChar(d)) == d
  {
  }

  /** `f"{n}"` for a non-negative integer: decimal digits, no leading zero. */
  function NatToString(n: nat): (s: string)
    ensures |s| >= 1 && AllDigits(s)
    ensures |s| > 1 ==> s[0] != '0'
  {
    if n < 10 then [DigitChar(n)]
    else NatToString(n / 10) + [DigitChar(n % 10)]
  }

  /** The inverse of `NatToString`: read a digit string as a decimal number. */
  function ParseNat(s: string): nat
    requires AllDigits(s)
  {
    if |s| == 0 then 0
    else ParseNat(s[..|s| - 1]) * 10 + DigitValue(s[|s| - 1])
  }

  lemma {:induction false} ParseNatToString(n: nat)
    ensures ParseNat(NatToString(n)) == n
  {
    var s := NatToString(n);
    if n < 10 {
      DigitRoundTrip(n);
    } else {
      assert s[..|s| - 1] == NatToString(n / 10);
      DigitRoundTrip(n % 10);
      ParseNatToString(n / 10);
    }
  }

  /** Different epoch numbers render differently. */
  lemma NatToStringInjective(a: nat, b: nat)
    ensures NatToString(a) == NatToString(b) ==> a == b
  {
    ParseNatToString(a);
    ParseNatToString(b);
  }

  /**
   * The path `save_model` writes to: MODEL_PATH itself when the suffix is `None` or
   * empty (Python's `if suffix:`), otherwise `base + "_" + suffix + ext` with
   * `(base, ext) == splitext(MODEL_PATH)`.
   */
  function SavePath(modelPath: string, suffix: Option<string>): (r: string)
    ensures suffix.None? || suffix.value == [] ==> r == modelPath
    ensures suffix.Some? && suffix.value != [] ==> |r| == |modelPath| + 1 + |suffix.value|
    ensures suffix.Some? && suffix.value != [] ==> r != modelPath
  {
    if suffix.Some? && suffix.value != [] then
      var (base, ext) := SplitExt(modelPath);
      base + "_" + suffix.value + ext
    else
      modelPath
  }

  /** The suffix sits between the base and the extension of MODEL_PATH. */
  lemma SavePathLayout(modelPath: string, suffix: string)
    requires suffix != []
    ensures var (base, ext) := SplitExt(modelPath);
      var r := SavePath(modelPath, Some(suffix));
      && r[..|base|] == base
      && r[|base|] == '_'
      && r[|base| + 1..|base| + 1 + |suffix|] == suffix
      && r[|base| + 1 + |suffix|..] == ext
  {
  }

  /** Two different non-empty suffixes never name the same file. */
  lemma DistinctSuffixesDistinctPaths(modelPath: string, s1: string, s2: string)
    requires s1 != [] && s2 != [] && s1 != s2
    ensures SavePath(modelPath, Some(s1)) != SavePath(modelPath, Some(s2))
  {
    var base := SplitExt(modelPath).0;
    var p1 := SavePath(modelPath, Some(s1));
    var p2 := SavePath(modelPath, Some(s2));
    SavePathLayout(modelPath, s1);
    SavePathLayout(modelPath, s2);
    if |s1| == |s2| {
      assert p1[|base| + 1..|base| + 1 + |s1|] == s1;
      assert p2[|base| + 1..|base| + 1 + |s2|] == s2;
    }
  }

  /** Appending characters other than `c` does not move the last `c`. */
  lemma RFindAppendFree(s: string, t: string, c: char)
    requires forall k :: 0 <= k < |t| ==> t[k] != c
    ensures RFind(s + t, c) == RFind(s, c)
  {
    var st := s + t;
    assert forall k :: |s| <= k < |st| ==> st[k] == t[k - |s|];
    RFindUnique(st, c, RFind(s, c));
  }

  /** Splitting `p + mid` when `p` has no extension and `mid` adds no dot or slash. */
  lemma SplitExtNoExtension(p: string, mid: string)
    requires SplitExt(p).1 == []
    requires forall k :: 0 <= k < |mid| ==> mid[k] != '.' && mid[k] != '/'
    ensures SplitExt(p + mid) == (p + mid, [])
  {
    var q := p + mid;
    RFindAppendFree(p, mid, '/');
    RFindAppendFree(p, mid, '.');
    var sep := RFind(p, '/');
    var dot := RFind(p, '.');
    if dot > sep {
      assert forall k :: sep + 1 <= k < dot ==> q[k] == p[k];
      assert HasNonDot(q, sep + 1, dot) == HasNonDot(p, sep + 1, dot);
    }
  }

  /** Splitting `base + mid + ext` when `base + ext` splits into `(base, ext)`. */
  lemma SplitExtInsert(base: string, mid: string, ext: string)
    requires SplitExt(base + ext) == (base, ext) && ext != []
    requires forall k :: 0 <= k < |mid| ==> mid[k] != '.' && mid[k] != '/'
    ensures SplitExt(base + mid + ext) == (base + mid, ext)
  {
    var p := base + ext;
    var q := base + mid + ext;
    var n := |base| + |mid|;
    var sep := RFind(p, '/');
    var dot := RFind(p, '.');
    assert dot == |base|;
    assert ext[0] == '.';
    assert forall k :: 0 < k < |ext| ==> ext[k] != '/';
    assert forall k :: 0 <= k < |ext| ==> ext[k] != '/';
    RFindAppendFree(base, ext, '/');
    assert q == base + (mid + ext);
    var tail := mid + ext;
    assert forall k :: 0 <= k < |tail| ==> tail[k] != '/' by {
      forall k | 0 <= k < |tail|
        ensures tail[k] != '/'
      {
        if k < |mid| {
          assert tail[k] == mid[k];
        } else {
          assert tail[k] == ext[k - |mid|];
        }
      }
    }
    RFindAppendFree(base, tail, '/');
    assert forall k :: n < k < |q| ==> q[k] == ext[k - n];
    RFindUnique(q, '.', n);
    var k :| sep + 1 <= k < dot && p[k] != '.';
    assert q[k] == p[k];
    assert HasNonDot(q, sep + 1, n);
    assert q[..n] == base + mid;
    assert q[n..] == ext;
  }

  /**
   * A suffixed checkpoint keeps MODEL_PATH's extension: `splitext` of the new path gives
   * back `base + "_" + suffix` and the original extension, as long as the suffix holds
   * no dot and no slash.
   */
  lemma SuffixKeepsExtension(modelPath: string, suffix: string)
    requires suffix != []
    requires forall k :: 0 <= k < |suffix| ==> suffix[k] != '.' && suffix[k] != '/'
    ensures var (base, ext) := SplitExt(modelPath);
      SplitExt(SavePath(modelPath, Some(suffix))) == (base + "_" + suffix, ext)
  {
    var (base, ext) := SplitExt(modelPath);
    var mid := "_" + suffix;
    assert forall k :: 0 <= k < |mid| ==> mid[k] != '.' && mid[k] != '/' by {
      forall k | 0 <= k < |mid|
        ensures mid[k] != '.' && mid[k] != '/'
      {
        if k > 0 {
          assert mid[k] == suffix[k - 1];
        }
      }
    }
    assert SavePath(modelPath, Some(suffix)) == base + mid + ext;
    if ext == [] {
      assert base == modelPath;
      SplitExtNoExtension(modelPath, mid);
    } else {
      SplitExtInsert(base, mid, ext);
    }
    assert base + mid == base + "_" + suffix;
  }

  /** The 2D configuration's checkpoint after 500 epochs lands next to `best_model.pth`. */
  lemma ExampleEpoch500Path()
    ensures SavePath("resultados/simulacao_2d/modelo/best_model.pth", Some("epoch500"))
         == "resultados/simulacao_2d/modelo/best_model_epoch500.pth"
  {
    var p := "resultados/simulacao_2d/modelo/best_model.pth";
    RFindUnique(p, '/', 30);
    RFindUnique(p, '.', 41);
    assert p[31] != '.';
    assert SplitExt(p) == (p[..41], p[41..]);
  }
}
