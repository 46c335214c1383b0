/**
 A cipher that meets every law the stored-secret proofs assume of one, so that
 those laws are consistent: each sealed text names its key and its place.
 */
module IdealCipher {
  import opened Wrappers
  import opened Secrets

  function Tally(n: nat): string {
    if n == 0 then "$" else "|" + Tally(n - 1)
  }

  function Header(key: nat, aad: string): string {
    SEALED_V2_PREFIX + (Tally(key) + (Tally(|aad|) + aad))
  }

  /** An old text names the key it was sealed under, and no place. */
  function OldHeader(key: nat): string {
    Tally(key)
  }

  /** The legacy key that goes with a key. */
  function Companion(key: nat): nat { key + 1 }

  function Ideal(): Cipher {
    Cipher((key: nat, nonce: nat, text: string, aad: string) => Header(key, aad) + text,
           (key: nat, stored: string, aad: string) =>
             if Header(key, aad) <= stored then Some(stored[|Header(key, aad)|..]) else None,
           (key: nat, stored: string) =>
             if OldHeader(key) <= stored then Some(stored[|OldHeader(key)|..])
             else if OldHeader(Companion(key)) <= stored then Some(stored[|OldHeader(Companion(key))|..])
             else None)
  }

  /** A text begins with one tally only. */
  lemma {:induction false} TalliesAgree(m: nat, x: string, n: nat, y: string)
    requires Tally(m) + x == Tally(n) + y
    ensures m == n && x == y
  {
    assert (Tally(m) + x)[0] == Tally(m)[0] && (Tally(n) + y)[0] == Tally(n)[0];
    if m == 0 {
      assert (Tally(m) + x)[1..] == x && (Tally(n) + y)[1..] == y;
    } else if n > 0 {
      assert (Tally(m) + x)[1..] == Tally(m - 1) + x && (Tally(n) + y)[1..] == Tally(n - 1) + y;
      TalliesAgree(m - 1, x, n - 1, y);
    }
  }

  lemma HeadersAgree(key: nat, aad: string, text: string, other: nat, place: string, rest: string)
    requires Header(key, aad) + text == Header(other, place) + rest
    ensures key == other && aad == place
  {
    var x, y := Tally(|aad|) + (aad + text), Tally(|place|) + (place + rest);
    var p := |SEALED_V2_PREFIX|;
    assert (Header(key, aad) + text)[p..] == Tally(key) + x;
    assert (Header(other, place) + rest)[p..] == Tally(other) + y;
    TalliesAgree(key, x, other, y);
    TalliesAgree(|aad|, aad + text, |place|, place + rest);
    assert (aad + text)[..|aad|] == aad && (place + rest)[..|place|] == place;
  }

  /** Of what keys an old text opens under, each opens it to the same plaintext. */
  lemma OldHeadersAgree(key: nat, other: nat, stored: string)
    requires OldHeader(key) <= stored && OldHeader(other) <= stored
    ensures stored[|OldHeader(key)|..] == stored[|OldHeader(other)|..]
  {
    assert stored == Tally(key) + stored[|Tally(key)|..] == Tally(other) + stored[|Tally(other)|..];
    TalliesAgree(key, stored[|Tally(key)|..], other, stored[|Tally(other)|..]);
  }

  lemma OldTextsAgree(key: nat, other: nat, stored: string)
    requires Ideal().openOld(key, stored).Some? && Ideal().openOld(other, stored).Some?
    ensures Ideal().openOld(key, stored) == Ideal().openOld(other, stored)
  {
    var k := if OldHeader(key) <= stored then key else Companion(key);
    var o := if OldHeader(other) <= stored then other else Companion(other);
    OldHeadersAgree(k, o, stored);
  }

  /** Old texts there are: unprefixed, and opened by the key and by the key whose companion it is. */
  lemma OldTextsOpen(key: nat, text: string)
    ensures Ideal().openOld(key + 1, OldHeader(key + 1) + text) == Some(text)
    ensures Ideal().openOld(key, OldHeader(key + 1) + text) == Some(text)
    ensures !IsSealedV2(OldHeader(key + 1) + text)
  {
    var c, header := Ideal(), OldHeader(Companion(key));
    var earlier := header + text;
    assert header <= earlier && earlier[|header|..] == text;
    if OldHeader(key) <= earlier { OldHeadersAgree(key, Companion(key), earlier); }
    assert c.openOld(Companion(key), earlier) == Some(text);
    assert c.openOld(key, earlier) == Some(text);
    TallyBegins(key, text);
  }

  lemma TallyBegins(key: nat, text: string)
    ensures !IsSealedV2(OldHeader(key + 1) + text)
  {
    var earlier := OldHeader(key + 1) + text;
    assert earlier[0] == OldHeader(key + 1)[0] == '|';
    assert |SEALED_V2_PREFIX| <= |earlier| ==> earlier[..|SEALED_V2_PREFIX|][0] == earlier[0];
    assert SEALED_V2_PREFIX[0] == '$';
  }

  lemma IdealIsLawful()
    ensures Lawful(Ideal())
  {
    var c := Ideal();
    forall key: nat, nonce: nat, text: string, aad: string ensures IsSealedV2(c.seal(key, nonce, text, aad)) {
      assert c.seal(key, nonce, text, aad)[..|SEALED_V2_PREFIX|] == SEALED_V2_PREFIX;
    }
    forall key: nat, nonce: nat, text: string, aad: string, other: nat, place: string
      | c.open(other, c.seal(key, nonce, text, aad), place).Some?
      ensures other == key && place == aad
    {
      var sealed := c.seal(key, nonce, text, aad);
      assert sealed == Header(other, place) + sealed[|Header(other, place)|..];
      HeadersAgree(key, aad, text, other, place, sealed[|Header(other, place)|..]);
    }
    forall key: nat, other: nat, stored: string | c.openOld(key, stored).Some? && c.openOld(other, stored).Some?
      ensures c.openOld(key, stored) == c.openOld(other, stored)
    {
      OldTextsAgree(key, other, stored);
    }
    forall key: nat, nonce: nat, text: string, aad: string
      ensures c.open(key, c.seal(key, nonce, text, aad), aad) == Some(text)
    {
      assert (Header(key, aad) + text)[|Header(key, aad)|..] == text;
    }
  }
}
