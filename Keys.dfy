/**
 * The strings the plugin derives from numbers: the decimal rendering JavaScript's
 * string concatenation produces for a non-negative integer, and the link key
 * 'character_' + CharacterID + '-' + CharacterOwnerHash under which an EVE Online
 * character is recorded in the 'eveonlinessoid:uid' index.
 */
module Keys {

  const KEY_PREFIX := "character_"

  predicate IsDigit(c: char) {
    '0' <= c <= '9'
  }

  function DigitChar(d: nat): (c: char)
    requires d < 10
    ensures IsDigit(c)
    ensures c as int - '0' as int == d
  {
    ('0' as int + d) as char
  }

  /** The number a string of decimal digits denotes, most significant digit first. */
  function DigitsValue(s: string): nat
    requires forall i :: 0 <= i < |s| ==> IsDigit(s[i])
  {
    if s == [] then 0
    else
      assert IsDigit(s[|s| - 1]);
      DigitsValue(s[..|s| - 1]) * 10 + (s[|s| - 1] as int - '0' as int)
  }

  /** The decimal digits of n, most significant first, without leading zeros. */
  function Decimal(n: nat): (s: string)
    ensures |s| >= 1
    ensures n >= 10 ==> |s| >= 2
    ensures forall i :: 0 <= i < |s| ==> IsDigit(s[i])
    ensures DigitsValue(s) == n
    ensures |s| > 1 ==> s[0] != '0'
    decreases n
  {
    if n < 10 then [DigitChar(n)]
    else
      var h := Decimal(n / 10);
      var s := h + [DigitChar(n % 10)];
      assert s[..|s| - 1] == h;
      assert s[0] == h[0];
      s
  }

  /** Distinct numbers render as distinct strings: the digits denote the number. */
  lemma DecimalInjective(a: nat, b: nat)
    requires Decimal(a) == Decimal(b)
    ensures a == b
  {
    assert a == DigitsValue(Decimal(a)) == DigitsValue(Decimal(b)) == b;
  }

  /**
   * The key the verify callback binds for a character (library.js:233): the prefix,
   * then digits denoting the character id, a '-', and the owner hash.
   */
  function LinkKey(characterId: nat, ownerHash: string): (k: string)
    ensures |k| > |KEY_PREFIX| && k[..|KEY_PREFIX|] == KEY_PREFIX
    ensures var p, n := |KEY_PREFIX|, |Decimal(characterId)|;
      && p + n < |k| && k[p + n] == '-'
      && (forall i :: p <= i < p + n ==> IsDigit(k[i]))
      && DigitsValue(k[p..p + n]) == characterId
      && k[p + n + 1..] == ownerHash
  {
    var k := KEY_PREFIX + Decimal(characterId) + "-" + ownerHash;
    assert k[|KEY_PREFIX|..|KEY_PREFIX| + |Decimal(characterId)|] == Decimal(characterId);
    k
  }

  /**
   * A link key determines the character and the owner hash it was built from: the
   * decimal part holds no '-', so the first '-' after the prefix separates the two.
   * In particular the same character under a new owner hash gets a new key.
   */
  lemma LinkKeyInjective(id1: nat, hash1: string, id2: nat, hash2: string)
    requires LinkKey(id1, hash1) == LinkKey(id2, hash2)
    ensures id1 == id2 && hash1 == hash2
  {
    var k := LinkKey(id1, hash1);
    var d1, d2 := Decimal(id1), Decimal(id2);
    var p := |KEY_PREFIX|;
    assert k == KEY_PREFIX + (d1 + ("-" + hash1));
    assert k == KEY_PREFIX + (d2 + ("-" + hash2));
    FirstDash(d1, hash1);
    FirstDash(d2, hash2);
    assert k[p..] == d1 + "-" + hash1 == d2 + "-" + hash2;
    assert |d1| == |d2|;
    assert d1 == k[p..p + |d1|];
    assert d2 == k[p..p + |d2|];
    DecimalInjective(id1, id2);
    assert hash1 == k[p + |d1| + 1..];
    assert hash2 == k[p + |d2| + 1..];
  }

  /** In a digit string followed by '-', the first '-' is the one after the digits. */
  lemma FirstDash(d: string, rest: string)
    requires forall i :: 0 <= i < |d| ==> IsDigit(d[i])
    ensures (d + "-" + rest)[|d|] == '-'
    ensures forall i :: 0 <= i < |d| ==> (d + "-" + rest)[i] != '-'
  {
  }

  lemma LinkKeyNotEmpty(characterId: nat, ownerHash: string)
    ensures LinkKey(characterId, ownerHash) != ""
    ensures LinkKey(characterId, ownerHash)[..|KEY_PREFIX|] == KEY_PREFIX
  {
  }
}
