/**
 * The two-output sink the interceptor writes the canonical request into:
 * every `append` goes verbatim to both the sign string and the log string,
 * every `appendAbbreviate` goes verbatim to the sign string and through the
 * abbreviation function to the log string.
 */
module Sink {

  /** One write to the sink: a plain `append` or an `appendAbbreviate`. */
  datatype Piece = Lit(text: string) | Val(text: string)

  /** What the sign string receives: every piece verbatim. */
  function Text(ps: seq<Piece>): string {
    if ps == [] then "" else Text(ps[..|ps| - 1]) + ps[|ps| - 1].text
  }

  /** What the log string receives: values go through `abbrev`. */
  function Shadow(ps: seq<Piece>, abbrev: string -> string): string {
    if ps == [] then ""
    else
      var last := ps[|ps| - 1];
      Shadow(ps[..|ps| - 1], abbrev) + (if last.Lit? then last.text else abbrev(last.text))
  }

  predicate AllLit(ps: seq<Piece>) {
    forall i :: 0 <= i < |ps| ==> ps[i].Lit?
  }

  /** Regrouping appended writes; stated once so that callers need not unfold sequences. */
  lemma Regroup(p: seq<Piece>, a: seq<Piece>, b: seq<Piece>)
    ensures p + a + b == p + (a + b)
  {
  }

  lemma RegroupNames(p: seq<string>, a: seq<string>, b: seq<string>)
    ensures p + a + b == p + (a + b)
  {
  }

  lemma {:induction false} TextAppend(a: seq<Piece>, b: seq<Piece>)
    ensures Text(a + b) == Text(a) + Text(b)
    decreases |b|
  {
    if b == [] {
      assert a + b == a;
    } else {
      var b' := b[..|b| - 1];
      assert (a + b)[..|a + b| - 1] == a + b';
      TextAppend(a, b');
    }
  }

  lemma {:induction false} ShadowAppend(a: seq<Piece>, b: seq<Piece>, abbrev: string -> string)
    ensures Shadow(a + b, abbrev) == Shadow(a, abbrev) + Shadow(b, abbrev)
    decreases |b|
  {
    if b == [] {
      assert a + b == a;
    } else {
      var b' := b[..|b| - 1];
      assert (a + b)[..|a + b| - 1] == a + b';
      ShadowAppend(a, b', abbrev);
    }
  }

  /** Plain appends reach both strings identically. */
  lemma {:induction false} ShadowOfLits(ps: seq<Piece>, abbrev: string -> string)
    requires AllLit(ps)
    ensures Shadow(ps, abbrev) == Text(ps)
  {
    if ps != [] {
      ShadowOfLits(ps[..|ps| - 1], abbrev);
    }
  }

  /**
   * The log string differs from the sign string only through the
   * abbreviation: where the abbreviation leaves every written value as it
   * is, the two strings are equal.
   */
  lemma {:induction false} ShadowFaithful(ps: seq<Piece>, abbrev: string -> string)
    requires forall i :: 0 <= i < |ps| && ps[i].Val? ==> abbrev(ps[i].text) == ps[i].text
    ensures Shadow(ps, abbrev) == Text(ps)
  {
    if ps != [] {
      ShadowFaithful(ps[..|ps| - 1], abbrev);
    }
  }

  /** An abbreviation that never lengthens a value never lengthens the log. */
  lemma {:induction false} ShadowNoLonger(ps: seq<Piece>, abbrev: string -> string)
    requires forall v :: |abbrev(v)| <= |v|
    ensures |Shadow(ps, abbrev)| <= |Text(ps)|
  {
    if ps != [] {
      ShadowNoLonger(ps[..|ps| - 1], abbrev);
    }
  }

  /**
   * The `AbbreviateAppendable` proxy over two string builders. `pieces` is
   * the record of every write so far.
   */
  class DualSink {
    var sign: string
    var log: string
    const abbrev: string -> string
    ghost var pieces: seq<Piece>

    ghost predicate Valid()
      reads this
    {
      sign == Text(pieces) && log == Shadow(pieces, abbrev)
    }

    constructor (abbrev: string -> string)
      ensures Valid() && pieces == [] && this.abbrev == abbrev
      ensures sign == "" && log == ""
    {
      this.abbrev := abbrev;
      sign, log := "", "";
      pieces := [];
    }

    /** `append`: the same text to both strings. */
    method Append(s: string)
      requires Valid()
      modifies this
      ensures Valid() && pieces == old(pieces) + [Lit(s)]
      ensures sign == old(sign) + s && log == old(log) + s
    {
      sign := sign + s;
      log := log + s;
      pieces := pieces + [Lit(s)];
      assert pieces[..|pieces| - 1] == old(pieces);
    }

    /** `appendAbbreviate`: the value to the sign string, its abbreviation to the log string. */
    method AppendAbbreviate(s: string)
      requires Valid()
      modifies this
      ensures Valid() && pieces == old(pieces) + [Val(s)]
      ensures sign == old(sign) + s && log == old(log) + abbrev(s)
    {
      sign := sign + s;
      log := log + abbrev(s);
      pieces := pieces + [Val(s)];
      assert pieces[..|pieces| - 1] == old(pieces);
    }
  }
}
