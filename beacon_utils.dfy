/**
 * Group-beacon helpers (lib/goofy-beacon/utils.ts): invite codes drawn from a
 * 32-symbol alphabet without the look-alikes I, O, 0 and 1, and the clamp
 * that keeps a requested expiry between one hour and one week. The random
 * bytes are a parameter.
 */
module BeaconUtils {
  import opened Wrappers
  import opened Seqs

  newtype byte = x: int | 0 <= x < 256

  /** `alphabet`. */
  const Alphabet: string := "ABCDEFGHJKLMNPQRSTUVWXYZ23456789"

  /** Neither an I, an O, a 0 nor a 1. */
  predicate Unambiguous(c: char) {
    c != 'I' && c != 'O' && c != '0' && c != '1'
  }

  /** The alphabet is the upper-case letters and digits less I, O, 0 and 1, each once. */
  lemma AlphabetShape()
    ensures |Alphabet| == 32
    ensures forall c :: c in Alphabet <==> (('A' <= c <= 'Z' || '0' <= c <= '9') && Unambiguous(c))
    ensures forall i, j :: 0 <= i < |Alphabet| && 0 <= j < |Alphabet| && Alphabet[i] == Alphabet[j] ==> i == j
  {
    forall c | ('A' <= c <= 'Z' || '0' <= c <= '9') && Unambiguous(c) ensures c in Alphabet {
      AlphabetHas(c);
    }
    forall i, j | 0 <= i < |Alphabet| && 0 <= j < |Alphabet| && Alphabet[i] == Alphabet[j] ensures i == j {
      AlphabetAt(i);
      AlphabetAt(j);
    }
    forall c | c in Alphabet ensures ('A' <= c <= 'Z' || '0' <= c <= '9') && Unambiguous(c) {
      var k :| 0 <= k < |Alphabet| && Alphabet[k] == c;
      AlphabetAt(k);
    }
  }

  lemma AlphabetHas(c: char)
    requires ('A' <= c <= 'Z' || '0' <= c <= '9') && Unambiguous(c)
    ensures c in Alphabet
  {
    if 'A' <= c <= 'H' {
      assert Alphabet[c as int - 'A' as int] == c;
    } else if 'J' <= c <= 'N' {
      assert Alphabet[c as int - 'A' as int - 1] == c;
    } else if 'P' <= c <= 'Z' {
      assert Alphabet[c as int - 'A' as int - 2] == c;
    } else {
      assert Alphabet[c as int - '2' as int + 24] == c;
    }
  }

  /** The character code of symbol `k`: A-H, J-N, P-Z, then 2-9. */
  function SymbolCode(k: int): int {
    if k < 8 then 'A' as int + k
    else if k < 13 then 'A' as int + k + 1
    else if k < 24 then 'A' as int + k + 2
    else '2' as int + k - 24
  }

  lemma AlphabetAt(k: int)
    requires 0 <= k < |Alphabet|
    ensures Alphabet[k] as int == SymbolCode(k)
  {
    if k < 8 {
    } else if k < 13 {
    } else if k < 24 {
    } else {
    }
  }

  /** The code the bytes give: byte `b` picks symbol `b % 32`. */
  function InviteCode(bytes: seq<byte>): (code: string)
    ensures |code| == |bytes|
  {
    seq(|bytes|, i requires 0 <= i < |bytes| => Alphabet[bytes[i] as int % |Alphabet|])
  }

  /**
   * `generateInviteCode(length)`, with the `length` random bytes passed in:
   * one symbol per byte, appended in order.
   */
  method GenerateInviteCode(length: nat, bytes: seq<byte>) returns (out: string)
    requires |bytes| == length
    ensures out == InviteCode(bytes)
    ensures |out| == length
  {
    out := "";
    for i := 0 to length
      invariant out == InviteCode(bytes[..i])
    {
      out := out + [Alphabet[bytes[i] as int % |Alphabet|]];
      assert bytes[..i + 1] == bytes[..i] + [bytes[i]];
    }
    assert bytes[..length] == bytes;
  }

  /** Every symbol of a code is an upper-case letter or a digit other than I, O, 0 and 1. */
  lemma InviteCodeSymbols(bytes: seq<byte>)
    ensures forall k :: 0 <= k < |InviteCode(bytes)| ==>
              var c := InviteCode(bytes)[k];
              c in Alphabet && ('A' <= c <= 'Z' || '2' <= c <= '9') && Unambiguous(c)
  {
    AlphabetShape();
  }

  /** The position of a symbol in the alphabet. */
  function SymbolIndex(c: char): (k: int)
    requires c in Alphabet
    ensures 0 <= k < |Alphabet| && Alphabet[k] == c
  {
    ghost var j :| 0 <= j < |Alphabet| && Alphabet[j] == c;
    AlphabetAt(j);
    CodeIndexOf(j);
    CodeIndex(c as int)
  }

  /** The symbol whose character code is `code`, undoing `SymbolCode`. */
  function CodeIndex(code: int): int {
    if code <= '9' as int then code - '2' as int + 24
    else if code <= 'H' as int then code - 'A' as int
    else if code <= 'N' as int then code - 'A' as int - 1
    else code - 'A' as int - 2
  }

  lemma CodeIndexOf(k: int)
    requires 0 <= k < 32
    ensures CodeIndex(SymbolCode(k)) == k
  {
  }

  /** A code gives back each byte modulo 32: no two residues share a symbol. */
  lemma InviteCodeDecodes(bytes: seq<byte>)
    ensures forall k :: 0 <= k < |bytes| ==>
              InviteCode(bytes)[k] in Alphabet && SymbolIndex(InviteCode(bytes)[k]) == bytes[k] as int % 32
  {
    AlphabetShape();
    forall k | 0 <= k < |bytes|
      ensures InviteCode(bytes)[k] in Alphabet && SymbolIndex(InviteCode(bytes)[k]) == bytes[k] as int % 32
    {
      var c := InviteCode(bytes)[k];
      var n := bytes[k] as int % 32;
      assert Alphabet[n] == c;
    }
  }

  /** The JavaScript numbers `clampExpiryHours` can be handed. */
  datatype Number = NaN | PositiveInfinity | NegativeInfinity | Finite(x: real)

  const DefaultExpiryHours := 48
  const MinExpiryHours := 1
  const MaxExpiryHours := 168

  /**
   * `clampExpiryHours`: `undefined` is `None`. A missing, zero or NaN input is
   * the default 48 hours; anything else is floored and held to [1, 168].
   */
  function ClampExpiryHours(input: Option<Number>): (hours: int)
    ensures MinExpiryHours <= hours <= MaxExpiryHours
  {
    match input
    case None => DefaultExpiryHours
    case Some(NaN) => DefaultExpiryHours
    case Some(PositiveInfinity) => MaxExpiryHours
    case Some(NegativeInfinity) => MinExpiryHours
    case Some(Finite(x)) =>
      if x == 0.0 then DefaultExpiryHours
      else if x.Floor < MinExpiryHours then MinExpiryHours
      else if x.Floor > MaxExpiryHours then MaxExpiryHours
      else x.Floor
  }

  /** Falsy input gives 48; in-range input is floored; the rest sticks at the nearer bound. */
  lemma ClampExpiryCases(input: Option<Number>)
    ensures input.None? || input == Some(NaN) || input == Some(Finite(0.0)) ==> ClampExpiryHours(input) == 48
    ensures forall x: real :: input == Some(Finite(x)) && x != 0.0 ==>
              ClampExpiryHours(input) == Min(168, Max(1, x.Floor))
    ensures forall x: real :: input == Some(Finite(x)) && 1.0 <= x < 169.0 ==> ClampExpiryHours(input) == x.Floor
    ensures input == Some(PositiveInfinity) ==> ClampExpiryHours(input) == 168
    ensures input == Some(NegativeInfinity) ==> ClampExpiryHours(input) == 1
  {
  }

  /** Clamping an hour count it produced gives it back. */
  lemma ClampExpiryIdempotent(input: Option<Number>)
    ensures ClampExpiryHours(Some(Finite(ClampExpiryHours(input) as real))) == ClampExpiryHours(input)
  {
  }

}
