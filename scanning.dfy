/**
 * A left-to-right replace over a text, told only where a match starts, how
 * long it is and what replaces it. The facts here are proved once, for any
 * matcher and any property of characters, so that proving them never looks
 * inside a particular pattern.
 */
module Scanning {
  import opened Wrappers
  import Sequences

  /** At each position: no match, or the length of the match and its replacement */
  type Matcher = nat -> Option<(nat, string)>

  /** Every match in a text of length `n` is non-empty and ends inside the text. */
  ghost predicate Advances(m: Matcher, n: nat) {
    forall j: nat :: j <= n && m(j).Some? ==> 1 <= m(j).value.0 && j + m(j).value.0 <= n
  }

  /** The text from `i` on with every match replaced; scanning resumes after a match. */
  function Scan(m: Matcher, s: string, i: nat): string
    requires i <= |s| && Advances(m, |s|)
    decreases |s| - i
  {
    if i == |s| then []
    else
      match m(i)
      case Some((len, repl)) => repl + Scan(m, s, i + len)
      case None => [s[i]] + Scan(m, s, i + 1)
  }

  /** At the end of the text the scan puts nothing. */
  lemma ScanEnd(m: Matcher, s: string)
    requires Advances(m, |s|)
    ensures Scan(m, s, |s|) == []
  {
  }

  /** Where no match starts, the scan copies the character and goes on with the next. */
  lemma ScanCopied(m: Matcher, s: string, i: nat)
    requires i < |s| && Advances(m, |s|) && m(i).None?
    ensures Scan(m, s, i) == [s[i]] + Scan(m, s, i + 1)
  {
  }

  /** At a match the scan puts its replacement and resumes after it. */
  lemma ScanMatched(m: Matcher, s: string, i: nat, len: nat, repl: string)
    requires i <= |s| && Advances(m, |s|) && m(i) == Some((len, repl))
    ensures Scan(m, s, i) == repl + Scan(m, s, i + len)
  {
  }

  /** Some character of `t` has property `P`. */
  ghost predicate Has(P: char -> bool, t: string) {
    exists k :: 0 <= k < |t| && P(t[k])
  }

  lemma HasFront(P: char -> bool, a: string, b: string)
    requires Has(P, a)
    ensures Has(P, a + b)
  {
    var k :| 0 <= k < |a| && P(a[k]);
    assert (a + b)[k] == a[k];
  }

  lemma HasBack(P: char -> bool, a: string, b: string)
    requires Has(P, b)
    ensures Has(P, a + b)
  {
    var k :| 0 <= k < |b| && P(b[k]);
    assert (a + b)[|a| + k] == b[k];
  }

  /**
   * A character with property `P` survives the scan: it is copied when no
   * match reaches over it, and a match that does has a replacement holding
   * such a character.
   */
  lemma {:induction false} ScanKeeps(P: char -> bool, m: Matcher, s: string, i: nat, p: nat)
    requires i <= p < |s| && Advances(m, |s|) && P(s[p])
    requires forall j: nat :: j <= p && m(j).Some? && p < j + m(j).value.0 ==> Has(P, m(j).value.1)
    ensures Has(P, Scan(m, s, i))
    decreases |s| - i
  {
    if m(i).None? {
      ScanCopied(m, s, i);
      if i < p {
        ScanKeeps(P, m, s, i + 1, p);
        HasBack(P, [s[i]], Scan(m, s, i + 1));
      } else {
        assert [s[i]][0] == s[p];
        HasFront(P, [s[i]], Scan(m, s, i + 1));
      }
    } else {
      var len, repl := m(i).value.0, m(i).value.1;
      ScanMatched(m, s, i, len, repl);
      if i + len <= p {
        ScanKeeps(P, m, s, i + len, p);
        HasBack(P, repl, Scan(m, s, i + len));
      } else {
        HasFront(P, repl, Scan(m, s, i + len));
      }
    }
  }

  /** Where no match starts, the scan copies the text. */
  lemma {:induction false} ScanCopies(m: Matcher, s: string, i: nat, j: nat)
    requires i <= j <= |s| && Advances(m, |s|)
    requires forall k: nat :: i <= k < j ==> m(k).None?
    ensures Scan(m, s, i) == s[i..j] + Scan(m, s, j)
    decreases j - i
  {
    if i < j {
      ScanCopied(m, s, i);
      ScanCopies(m, s, i + 1, j);
      assert s[i..j] == [s[i]] + s[i + 1..j];
      Sequences.JoinThree([s[i]], s[i + 1..j], Scan(m, s, j));
    }
  }

  /** A text with exactly one match has that match replaced and nothing else. */
  lemma ScanOnce(m: Matcher, s: string, i: nat, len: nat, repl: string)
    requires i + len <= |s| && Advances(m, |s|)
    requires forall k: nat :: k < i ==> m(k).None?
    requires m(i) == Some((len, repl))
    requires forall k: nat :: i + len <= k < |s| ==> m(k).None?
    ensures Scan(m, s, 0) == s[..i] + repl + s[i + len..]
  {
    ScanCopies(m, s, 0, i);
    ScanMatched(m, s, i, len, repl);
    ScanCopiesRest(m, s, i + len);
    assert s[0..i] == s[..i];
    Assemble(Scan(m, s, 0), s[..i], repl, s[i + len..], Scan(m, s, i), Scan(m, s, i + len));
  }

  /** From where no match starts any more, the scan copies the rest of the text. */
  lemma ScanCopiesRest(m: Matcher, s: string, j: nat)
    requires j <= |s| && Advances(m, |s|)
    requires forall k: nat :: j <= k < |s| ==> m(k).None?
    ensures Scan(m, s, j) == s[j..]
  {
    ScanCopies(m, s, j, |s|);
    ScanEnd(m, s);
    assert s[j..|s|] == s[j..];
    Sequences.AppendEmpty(s[j..]);
  }

  /** The pieces of a text put back together */
  lemma Assemble<T>(x: seq<T>, a: seq<T>, r: seq<T>, c: seq<T>, y: seq<T>, z: seq<T>)
    requires x == a + y && y == r + z && z == c
    ensures x == a + r + c
  {
  }
}
