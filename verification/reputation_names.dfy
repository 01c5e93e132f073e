// Domain names of the reputation table (compact_reputation.go): cleaning,
// validation and the label-suffix relation. A name is a byte string.

module ReputationNames {
  import opened Bytes

  type Name = seq<byte>

  const MAX_NAME: int := 253
  const MAX_LABEL: int := 63

  predicate IsSpace(b: byte) {
    b == 32 || 9 <= b <= 13
  }

  function Lower(n: Name): (r: Name)
    ensures |r| == |n|
  {
    seq(|n|, i requires 0 <= i < |n| => LowerByte(n[i]))
  }

  // One trailing dot at most is removed.
  function StripDot(n: Name): Name {
    if n != [] && n[|n| - 1] == DOT then n[..|n| - 1] else n
  }

  function TrimLeft(n: Name): Name {
    if n != [] && IsSpace(n[0]) then TrimLeft(n[1..]) else n
  }

  function TrimRight(n: Name): Name {
    if n != [] && IsSpace(n[|n| - 1]) then TrimRight(n[..|n| - 1]) else n
  }

  function TrimSpace(n: Name): Name { TrimRight(TrimLeft(n)) }

  lemma Spaces(b: byte)
    ensures IsSpace(b) <==> b as char == ' ' || '\t' <= b as char <= '\r'
  {
  }

  // Trimming cuts off exactly the spaces around the name.
  lemma TrimmedAround(n: Name) returns (lo: nat, hi: nat)
    ensures lo <= hi <= |n| && TrimSpace(n) == n[lo..hi]
    ensures forall i :: 0 <= i < |n| && (i < lo || hi <= i) ==> IsSpace(n[i])
    ensures lo < hi ==> !IsSpace(n[lo]) && !IsSpace(n[hi - 1])
  {
    lo := TrimmedLeft(n);
    hi := TrimmedRight(n[lo..]);
    assert n[lo..][..hi] == n[lo..lo + hi];
    assert forall i :: lo + hi <= i < |n| ==> n[i] == n[lo..][i - lo];
    hide TrimLeft, TrimRight;
    hi := lo + hi;
  }

  lemma {:induction false} TrimmedLeft(n: Name) returns (lo: nat)
    ensures lo <= |n| && TrimLeft(n) == n[lo..]
    ensures forall i :: 0 <= i < lo ==> IsSpace(n[i])
    ensures lo < |n| ==> !IsSpace(n[lo])
  {
    if n != [] && IsSpace(n[0]) {
      lo := TrimmedLeft(n[1..]);
      lo := lo + 1;
      assert forall i :: 1 <= i < lo ==> n[i] == n[1..][i - 1];
    } else {
      lo := 0;
    }
  }

  lemma {:induction false} TrimmedRight(n: Name) returns (hi: nat)
    ensures hi <= |n| && TrimRight(n) == n[..hi]
    ensures forall i :: hi <= i < |n| ==> IsSpace(n[i])
    ensures hi > 0 ==> !IsSpace(n[hi - 1])
  {
    if n != [] && IsSpace(n[|n| - 1]) {
      hi := TrimmedRight(n[..|n| - 1]);
    } else {
      hi := |n|;
    }
  }

  // The name a query is looked up under.
  function Clean(n: Name): Name { StripDot(Lower(n)) }

  // The name an entry is compiled under.
  function CompileName(n: Name): Name { StripDot(Lower(TrimSpace(n))) }

  // n[lo..hi] is a maximal run of bytes without a dot.
  predicate IsLabel(n: Name, lo: int, hi: int) {
    && 0 <= lo <= hi <= |n|
    && (lo == 0 || n[lo - 1] == DOT)
    && (hi == |n| || n[hi] == DOT)
    && forall k :: lo <= k < hi ==> n[k] != DOT
  }

  predicate ValidLabel(lab: Name) {
    && 1 <= |lab| <= MAX_LABEL
    && (forall i :: 0 <= i < |lab| ==> IsLabelByte(lab[i]))
    && lab[0] != HYPHEN
    && lab[|lab| - 1] != HYPHEN
  }

  predicate ValidName(n: Name) {
    && 0 < |n| <= MAX_NAME
    && forall lo, hi | 0 <= lo <= |n| && 0 <= hi <= |n| :: IsLabel(n, lo, hi) ==> ValidLabel(n[lo..hi])
  }

  // The shared hosting roots of the source, spelled as strings.
  const SHARED_HOSTING: set<string> := {
    "amazonaws.com", "cloudfront.net", "trafficmanager.net", "azure.com", "githubusercontent.com",
    "github.io", "appspot.com", "googleapis.com", "akamai.net", "akamaiedge.net"
  }

  function Ascii(s: string): Name {
    seq(|s|, i requires 0 <= i < |s| => if s[i] < 128 as char then s[i] as int else 0)
  }

  predicate IsSharedHosting(n: Name) {
    exists s | s in SHARED_HOSTING :: Ascii(s) == n
  }

  // Every prefix of a valid name up to a label boundary or inside a label
  // carries only label bytes and dots.
  lemma LabelAround(n: Name, i: int) returns (lo: int, hi: int)
    requires 0 <= i < |n| && n[i] != DOT
    ensures IsLabel(n, lo, hi) && lo <= i < hi
  {
    lo, hi := i, i + 1;
    while lo > 0 && n[lo - 1] != DOT
      invariant 0 <= lo <= i && forall k :: lo <= k <= i ==> n[k] != DOT
    {
      lo := lo - 1;
    }
    while hi < |n| && n[hi] != DOT
      invariant i < hi <= |n| && forall k :: lo <= k < hi ==> n[k] != DOT
    {
      hi := hi + 1;
    }
  }

  lemma ValidBytes(n: Name)
    requires ValidName(n)
    ensures forall i :: 0 <= i < |n| ==> n[i] == DOT || IsLabelByte(n[i])
    ensures n[0] != DOT && n[|n| - 1] != DOT
  {
    forall i | 0 <= i < |n|
      ensures n[i] == DOT || IsLabelByte(n[i])
    {
      if n[i] != DOT {
        var lo, hi := LabelAround(n, i);
        assert n[lo..hi][i - lo] == n[i];
      }
    }
    assert n[0] == DOT ==> IsLabel(n, 0, 0);
    assert n[|n| - 1] == DOT ==> IsLabel(n, |n|, |n|);
  }

  // A valid name is a fixed point of every normalisation.
  lemma ValidIsClean(n: Name)
    requires ValidName(n)
    ensures Lower(n) == n && Clean(n) == n && TrimSpace(n) == n && CompileName(n) == n
  {
    ValidBytes(n);
    assert Lower(n) == n;
  }

  // When the query cleaning of a spelling is a valid name, the compiler's
  // cleaning of the same spelling is that name too.
  lemma CleanAgrees(n: Name)
    requires ValidName(Clean(n))
    ensures CompileName(n) == Clean(n)
  {
    var c := Clean(n);
    ValidBytes(c);
    var l := Lower(n);
    assert forall i :: 0 <= i < |c| ==> c[i] == l[i];
    assert |n| > 0;
    assert l[0] == LowerByte(n[0]) == c[0];
    assert l[|n| - 1] == LowerByte(n[|n| - 1]);
    assert !IsSpace(n[0]) && !IsSpace(n[|n| - 1]);
    assert TrimSpace(n) == n;
  }

  // validReputationDomain, in the source's single pass over the bytes.
  method ValidReputationDomain(name: Name) returns (ok: bool)
    ensures ok == ValidName(name)
  {
    hide ValidLabel, IsLabelByte;
    if |name| == 0 || |name| > MAX_NAME {
      return false;
    }
    var labelLen := 0;
    for i := 0 to |name|
      invariant 0 <= labelLen <= i
      invariant i - labelLen == 0 || name[i - labelLen - 1] == DOT
      invariant forall k :: i - labelLen <= k < i ==> IsLabelByte(name[k]) && name[k] != DOT
      invariant labelLen > 0 ==> name[i - labelLen] != HYPHEN
      invariant forall lo, hi | 0 <= lo <= |name| && 0 <= hi < i :: IsLabel(name, lo, hi) ==> ValidLabel(name[lo..hi])
    {
      var b := name[i];
      ghost var start := i - labelLen;
      if b == DOT {
        LabelVerdict(name, start, i);
        if labelLen == 0 || labelLen > MAX_LABEL || name[i - 1] == HYPHEN {
          return false;
        }
        labelLen := 0;
        continue;
      }
      if !IsLabelByte(b) || (b == HYPHEN && labelLen == 0) {
        BadByte(name, start, i);
        return false;
      }
      labelLen := labelLen + 1;
    }
    ghost var start := |name| - labelLen;
    LabelVerdict(name, start, |name|);
    ok := labelLen > 0 && labelLen <= MAX_LABEL && name[|name| - 1] != HYPHEN;
  }

  // What remains to be checked when the scan reaches the end of a label.
  lemma LabelVerdict(n: Name, start: int, end: int)
    requires IsLabel(n, start, end)
    requires forall k :: start <= k < end ==> IsLabelByte(n[k])
    requires start < end ==> n[start] != HYPHEN
    ensures ValidLabel(n[start..end]) <==> start < end && end - start <= MAX_LABEL && n[end - 1] != HYPHEN
    ensures forall lo | 0 <= lo <= |n| :: IsLabel(n, lo, end) ==> lo == start
  {
    var lab := n[start..end];
    assert forall i :: 0 <= i < |lab| ==> lab[i] == n[start + i];
    assert start < end ==> lab[0] == n[start] && lab[|lab| - 1] == n[end - 1];
  }

  // A byte that no label may hold, or a label that begins with a hyphen.
  lemma BadByte(n: Name, start: int, i: int)
    requires 0 <= start <= i < |n| <= MAX_NAME && n[i] != DOT
    requires start == 0 || n[start - 1] == DOT
    requires forall k :: start <= k < i ==> n[k] != DOT
    requires !IsLabelByte(n[i]) || (n[i] == HYPHEN && i == start)
    ensures !ValidName(n)
  {
    var lo, hi := LabelAround(n, i);
    assert lo == start;
    assert n[lo..hi][i - lo] == n[i];
    assert i == lo ==> n[lo..hi][0] == n[i];
    assert !ValidLabel(n[lo..hi]);
  }

  // cleanDomain: lower-cases only when an upper-case byte is present.
  method CleanDomain(fqdn: Name) returns (s: Name)
    ensures s == Clean(fqdn)
  {
    if |fqdn| == 0 {
      return [];
    }
    var hasUpper := false;
    var i := 0;
    while i < |fqdn|
      invariant 0 <= i <= |fqdn|
      invariant !hasUpper ==> forall k :: 0 <= k < i ==> !IsUpper(fqdn[k])
    {
      if IsUpper(fqdn[i]) {
        hasUpper := true;
        break;
      }
      i := i + 1;
    }
    s := fqdn;
    if hasUpper {
      s := Lower(fqdn);
    } else {
      assert Lower(fqdn) == fqdn;
    }
    if s[|s| - 1] == DOT {
      s := s[..|s| - 1];
    }
  }
}
