/**
 * `os.path.dirname` on a POSIX system: the part of a path before its last
 * separator, with trailing separators removed unless the head is made of
 * separators only.
 */
module PosixPath {

  const Sep: char := '/'

  /** `p.rfind('/') + 1`: the position just after the last separator, 0 when there is none. */
  function AfterLastSep(p: string): (i: nat)
    ensures i <= |p|
    ensures i > 0 ==> p[i - 1] == Sep
    ensures forall k :: i <= k < |p| ==> p[k] != Sep
  {
    if p == [] then 0
    else if p[|p| - 1] == Sep then |p|
    else AfterLastSep(p[..|p| - 1])
  }

  /** `s.rstrip('/')`. */
  function RStripSep(s: string): string {
    if s != [] && s[|s| - 1] == Sep then RStripSep(s[..|s| - 1]) else s
  }

  predicate AllSeps(s: string) {
    forall k :: 0 <= k < |s| ==> s[k] == Sep
  }

  /** `os.path.dirname(p)` as `posixpath` computes it. */
  function Dirname(p: string): string {
    var head := p[..AfterLastSep(p)];
    if head != [] && !AllSeps(head) then RStripSep(head) else head
  }

  /** Stripping trailing separators never empties a string that holds another character. */
  lemma {:induction false} RStripSepKeepsOther(s: string, k: nat)
    requires k < |s| && s[k] != Sep
    ensures RStripSep(s) != []
  {
    if s[|s| - 1] == Sep {
      RStripSepKeepsOther(s[..|s| - 1], k);
    }
  }

  /** A path has an empty directory part exactly when it holds no separator. */
  lemma DirnameEmptyIff(p: string)
    ensures Dirname(p) == "" <==> Sep !in p
  {
    var i := AfterLastSep(p);
    var head := p[..i];
    if Sep in p {
      var k :| 0 <= k < |p| && p[k] == Sep;
      assert i > 0;
      if !AllSeps(head) {
        var m :| 0 <= m < |head| && head[m] != Sep;
        RStripSepKeepsOther(head, m);
      }
    }
  }
}
