/** Money: an amount of some currency seen as a fungible asset. Only its
    denomination takes part in equality. */
module Economics {

  /** A currency, known only through its equality. */
  type Currency(==)

  /** The asset and fungible base parts a money value is built on. */
  type AssetBase

  datatype Money = Money(base: AssetBase, denomination: Currency)

  /** `money(denomination)`: the base parts are default-constructed, which is
      represented by `base`. */
  function NewMoney(base: AssetBase, denomination: Currency): (m: Money)
    ensures m.denomination == denomination
    ensures m.base == base
  {
    Money(base, denomination)
  }

  /** `operator==`: only the denominations are compared. */
  predicate Equal(m1: Money, m2: Money): (r: bool)
    ensures r <==> m1.denomination == m2.denomination
  {
    m1.denomination == m2.denomination
  }

  /** `operator!=`: the negation of `operator==`, so it holds exactly when
      the denominations differ. */
  predicate NotEqual(m1: Money, m2: Money): (r: bool)
    ensures r <==> m1.denomination != m2.denomination
  {
    !Equal(m1, m2)
  }

  /** Two money values are equal exactly when their denominations are, and
      unequal exactly when they are not; the base parts play no role. */
  lemma EqualIffSameDenomination(m1: Money, m2: Money, b1: AssetBase, b2: AssetBase)
    ensures Equal(m1, m2) <==> m1.denomination == m2.denomination
    ensures NotEqual(m1, m2) <==> m1.denomination != m2.denomination
    ensures Equal(m1.(base := b1), m2.(base := b2)) == Equal(m1, m2)
  {
  }

  /** Money constructed from the same currency is equal, whatever the base
      parts, and from different currencies is not. */
  lemma NewMoneyEqual(b1: AssetBase, b2: AssetBase, c1: Currency, c2: Currency)
    ensures Equal(NewMoney(b1, c1), NewMoney(b2, c2)) <==> c1 == c2
  {
  }

  /** Equality on money is an equivalence relation. */
  lemma EqualIsEquivalence(a: Money, b: Money, c: Money)
    ensures Equal(a, a)
    ensures Equal(a, b) ==> Equal(b, a)
    ensures Equal(a, b) && Equal(b, c) ==> Equal(a, c)
  {
  }
}
