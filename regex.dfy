/** The fragment of JavaScript regular expressions that the wallet-address check
    uses: a pattern anchored at both ends (`^...$`, no multiline flag), made of
    pieces that each match a single character exactly `count` times. A literal
    character and a bracket class of character ranges are the two kinds of
    single-character term. */
module Regex {
  datatype CharRange = CharRange(lo: char, hi: char)

  datatype Term = Literal(c: char) | Class(ranges: seq<CharRange>)

  /** `term{count}`; a bare term is `term{1}`. */
  datatype Piece = Piece(term: Term, count: nat)

  predicate InRanges(ranges: seq<CharRange>, c: char) {
    exists i :: 0 <= i < |ranges| && ranges[i].lo <= c <= ranges[i].hi
  }

  predicate TermMatches(t: Term, c: char) {
    match t
    case Literal(l) => c == l
    case Class(ranges) => InRanges(ranges, c)
  }

  /** `t{n}` matches exactly `s`. */
  predicate RepeatMatches(t: Term, n: nat, s: string)
    decreases n
  {
    if n == 0 then s == []
    else |s| > 0 && TermMatches(t, s[0]) && RepeatMatches(t, n - 1, s[1..])
  }

  /** `^p$` matches `s`: the pieces consume `s` from left to right. Since every
      piece has a fixed width there is at most one way to split `s`. */
  predicate FullMatch(p: seq<Piece>, s: string)
    decreases |p|
  {
    if p == [] then s == []
    else
      var w := p[0].count;
      w <= |s| && RepeatMatches(p[0].term, w, s[..w]) && FullMatch(p[1..], s[w..])
  }

  lemma {:induction false} RepeatMatchesIff(t: Term, n: nat, s: string)
    ensures RepeatMatches(t, n, s) <==> |s| == n && forall i :: 0 <= i < |s| ==> TermMatches(t, s[i])
    decreases n
  {
    if n > 0 && |s| > 0 {
      RepeatMatchesIff(t, n - 1, s[1..]);
      if forall i :: 0 <= i < |s| ==> TermMatches(t, s[i]) {
        assert forall i :: 0 <= i < |s| - 1 ==> TermMatches(t, s[1..][i]) by {
          forall i | 0 <= i < |s| - 1 ensures TermMatches(t, s[1..][i]) {
            assert s[1..][i] == s[i + 1];
          }
        }
      }
      if RepeatMatches(t, n, s) {
        forall i | 0 <= i < |s| ensures TermMatches(t, s[i]) {
          if i > 0 { assert s[i] == s[1..][i - 1]; }
        }
      }
    }
  }

  /** `/^0x[a-fA-F0-9]{40}$/`, the wallet-address pattern written out in both
      the relay and the client form. */
  const AddressPattern: seq<Piece> := [
    Piece(Literal('0'), 1),
    Piece(Literal('x'), 1),
    Piece(Class([CharRange('a', 'f'), CharRange('A', 'F'), CharRange('0', '9')]), 40)
  ]

  predicate IsHexDigit(c: char) {
    '0' <= c <= '9' || 'a' <= c <= 'f' || 'A' <= c <= 'F'
  }

  /** The closed form of a wallet address: 42 characters, a lower-case `0x`
      prefix, then 40 hexadecimal digits of either case. */
  predicate IsAddress(s: string) {
    |s| == 42 && s[0] == '0' && s[1] == 'x' && forall i :: 2 <= i < 42 ==> IsHexDigit(s[i])
  }

  lemma AddressClassIsHex(c: char)
    ensures TermMatches(AddressPattern[2].term, c) <==> IsHexDigit(c)
  {
    var ranges := AddressPattern[2].term.ranges;
    if IsHexDigit(c) {
      if '0' <= c <= '9' {
        assert ranges[2].lo <= c <= ranges[2].hi;
      } else if 'a' <= c <= 'f' {
        assert ranges[0].lo <= c <= ranges[0].hi;
      } else {
        assert ranges[1].lo <= c <= ranges[1].hi;
      }
    }
  }

  /** A leading single-character piece consumes exactly the first character. */
  lemma PeelSingle(p: seq<Piece>, s: string)
    requires p != [] && p[0].count == 1
    ensures FullMatch(p, s) <==> |s| >= 1 && TermMatches(p[0].term, s[0]) && FullMatch(p[1..], s[1..])
  {
    if |s| >= 1 {
      assert s[..1][1..] == [];
    }
  }

  /** A last piece must consume the whole rest of the input. */
  lemma LastPiece(piece: Piece, s: string)
    ensures FullMatch([piece], s) <==> RepeatMatches(piece.term, piece.count, s)
  {
    assert [piece][1..] == [];
    if piece.count <= |s| {
      if |s| == piece.count {
        assert s[..piece.count] == s;
      } else {
        RepeatMatchesIff(piece.term, piece.count, s);
      }
    } else {
      RepeatMatchesIff(piece.term, piece.count, s);
    }
  }

  /** `[a-fA-F0-9]{40}` accepts exactly the runs of 40 hex digits. */
  lemma HexRunIff(r: string)
    ensures RepeatMatches(AddressPattern[2].term, 40, r) <==>
            |r| == 40 && forall i :: 0 <= i < 40 ==> IsHexDigit(r[i])
  {
    var hex := AddressPattern[2].term;
    RepeatMatchesIff(hex, 40, r);
    forall i | 0 <= i < |r| ensures TermMatches(hex, r[i]) <==> IsHexDigit(r[i]) {
      AddressClassIsHex(r[i]);
    }
  }

  /** The anchored pattern accepts exactly the strings of the closed form. */
  lemma AddressPatternIff(s: string)
    ensures FullMatch(AddressPattern, s) <==> IsAddress(s)
  {
    var p := AddressPattern;
    PeelSingle(p, s);
    if |s| >= 1 {
      PeelSingle(p[1..], s[1..]);
      if |s| >= 2 {
        var rest := s[1..][1..];
        assert p[1..][1..] == [p[2]];
        LastPiece(p[2], rest);
        HexRunIff(rest);
        assert |rest| == 40 ==>
          ((forall i :: 0 <= i < 40 ==> IsHexDigit(rest[i])) <==>
           (forall i :: 2 <= i < 42 ==> IsHexDigit(s[i]))) by {
          if |rest| == 40 {
            forall i | 2 <= i < 42 ensures rest[i - 2] == s[i] { }
          }
        }
      }
    }
  }

  /** Upper-case `0X`, a length of 41 or 43 and any non-hex digit are all
      rejected. */
  lemma AddressRejections(s: string)
    ensures |s| >= 2 && s[1] == 'X' ==> !FullMatch(AddressPattern, s)
    ensures |s| != 42 ==> !FullMatch(AddressPattern, s)
    ensures (exists i :: 2 <= i < |s| && !IsHexDigit(s[i])) ==> !FullMatch(AddressPattern, s)
  {
    AddressPatternIff(s);
  }
}
