/** The few Vstr operations the modelled code uses.

  A Vstr string is a `string` whose bytes are numbered from 1, as in the library: the section
  (pos, len) of s is s[pos - 1..pos - 1 + len].
 */
module Vstr {

  datatype Option<T> = None | Some(value: T)

  /** A section of a string, Vstr_sect_node. */
  datatype Sect = Sect(pos: nat, len: nat)

  predicate Within<T>(s: seq<T>, pos: nat, len: nat) {
    1 <= pos && pos - 1 + len <= |s|
  }

  function Slice<T>(s: seq<T>, pos: nat, len: nat): (r: seq<T>)
    requires Within(s, pos, len)
    ensures |r| == len
  {
    s[pos - 1..pos - 1 + len]
  }

  /** vstr_spn_chrs_fwd: the number of leading bytes that are in chrs. */
  function Span(s: string, chrs: string): (n: nat)
    ensures n <= |s|
    ensures forall i :: 0 <= i < n ==> s[i] in chrs
    ensures n < |s| ==> s[n] !in chrs
  {
    if s == [] || s[0] !in chrs then 0 else 1 + Span(s[1..], chrs)
  }

  /** vstr_cspn_chrs_fwd: the number of leading bytes that are not in chrs. */
  function CSpan(s: string, chrs: string): (n: nat)
    ensures n <= |s|
    ensures forall i :: 0 <= i < n ==> s[i] !in chrs
    ensures n < |s| ==> s[n] in chrs
  {
    if s == [] || s[0] in chrs then 0 else 1 + CSpan(s[1..], chrs)
  }

  /** A span is the only length with these three properties. */
  lemma SpanIs(s: string, chrs: string, n: nat)
    requires n <= |s|
    requires forall i :: 0 <= i < n ==> s[i] in chrs
    requires n < |s| ==> s[n] !in chrs
    ensures Span(s, chrs) == n
  {
  }

  lemma CSpanIs(s: string, chrs: string, n: nat)
    requires n <= |s|
    requires forall i :: 0 <= i < n ==> s[i] !in chrs
    requires n < |s| ==> s[n] in chrs
    ensures CSpan(s, chrs) == n
  {
  }

  /** VPREFIX: the section starts with t. */
  predicate HasPrefix(s: string, pos: nat, len: nat, t: string)
    requires Within(s, pos, len)
  {
    |t| <= len && Slice(s, pos, |t|) == t
  }

  /** vstr_srch_buf_fwd: the first position of t in the section, 0 when there is none. */
  function Search(s: string, pos: nat, len: nat, t: string): (p: nat)
    requires Within(s, pos, len)
    requires t != []
    ensures p != 0 ==> pos <= p && p + |t| <= pos + len && Slice(s, p, |t|) == t
    ensures forall q :: pos <= q && q + |t| <= pos + len && (p == 0 || q < p) ==> Slice(s, q, |t|) != t
    decreases len
  {
    if len < |t| then 0
    else if Slice(s, pos, |t|) == t then pos
    else Search(s, pos + 1, len - 1, t)
  }
}
