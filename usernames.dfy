/** Unique-username generation of the current service: the local part of the
    e-mail address, or that text followed by the least positive counter that is
    not yet taken. */
module Usernames {

  /** `email.Split('@')[0]`: the text before the first '@', or all of `email`
      when it has none. */
  function LocalPart(email: string): (r: string)
    ensures r <= email
    ensures '@' !in r
    ensures |r| < |email| ==> email[|r|] == '@'
  {
    if |email| == 0 || email[0] == '@' then [] else [email[0]] + LocalPart(email[1..])
  }

  predicate IsDigit(c: char)
  {
    '0' <= c <= '9'
  }

  predicate AllDigits(s: string)
  {
    forall i :: 0 <= i < |s| ==> IsDigit(s[i])
  }

  function DigitChar(d: nat): (c: char)
    requires d < 10
    ensures IsDigit(c)
  {
    (d + '0' as int) as char
  }

  function DigitValue(c: char): nat
    requires IsDigit(c)
  {
    (c as int) - ('0' as int)
  }

  /** The decimal text of a counter, as string interpolation writes an `int`:
      no leading zeros. */
  function Decimal(n: nat): (s: string)
    ensures |s| >= 1 && AllDigits(s)
    ensures n > 0 ==> s[0] != '0'
    ensures |s| > 1 ==> s[0] != '0'
  {
    if n < 10 then [DigitChar(n)] else Decimal(n / 10) + [DigitChar(n % 10)]
  }

  /** Reads decimal text back as a number; the partner of `Decimal`. */
  function ParseDecimal(s: string): nat
    requires AllDigits(s)
  {
    if |s| == 0 then 0 else 10 * ParseDecimal(s[..|s| - 1]) + DigitValue(s[|s| - 1])
  }

  lemma {:induction false} ParseDecimalOfDecimal(n: nat)
    ensures ParseDecimal(Decimal(n)) == n
  {
    var s := Decimal(n);
    if n < 10 {
      assert s[..|s| - 1] == [];
    } else {
      assert s[..|s| - 1] == Decimal(n / 10);
      ParseDecimalOfDecimal(n / 10);
    }
  }

  /** Two counters never print the same. */
  lemma DecimalInjective(m: nat, n: nat)
    requires Decimal(m) == Decimal(n)
    ensures m == n
  {
    ParseDecimalOfDecimal(m);
    ParseDecimalOfDecimal(n);
  }

  /** The username tried on the `attempt`-th test of the loop: the base name
      first, then `base + "1"`, `base + "2"`, and so on. */
  function Attempt(baseName: string, attempt: nat): string
    requires attempt >= 1
  {
    if attempt == 1 then baseName else baseName + Decimal(attempt - 1)
  }

  /** Different attempts try different names, so the loop never retests one. */
  lemma AttemptInjective(baseName: string, i: nat, j: nat)
    requires i >= 1 && j >= 1
    requires Attempt(baseName, i) == Attempt(baseName, j)
    ensures i == j
  {
    if i != 1 && j != 1 {
      var a, b := Attempt(baseName, i), Attempt(baseName, j);
      assert Decimal(i - 1) == a[|baseName|..];
      assert Decimal(j - 1) == b[|baseName|..];
      DecimalInjective(i - 1, j - 1);
    }
  }

  /** `name` is what the username loop must return for `baseName` when the names
      in `taken` are in use: the first attempt that is free, every earlier
      attempt being taken. */
  ghost predicate IsLeastFreeName(baseName: string, taken: set<string>, name: string)
  {
    exists k :: k >= 1 && name == Attempt(baseName, k) && name !in taken &&
      forall j :: 1 <= j < k ==> Attempt(baseName, j) in taken
  }

  /** The least free name is determined: at most one name satisfies it. */
  lemma LeastFreeNameUnique(baseName: string, taken: set<string>, a: string, b: string)
    requires IsLeastFreeName(baseName, taken, a)
    requires IsLeastFreeName(baseName, taken, b)
    ensures a == b
  {
    var ka :| ka >= 1 && a == Attempt(baseName, ka) && a !in taken &&
      forall j :: 1 <= j < ka ==> Attempt(baseName, j) in taken;
    var kb :| kb >= 1 && b == Attempt(baseName, kb) && b !in taken &&
      forall j :: 1 <= j < kb ==> Attempt(baseName, j) in taken;
    if ka < kb {
      assert false;
    } else if kb < ka {
      assert false;
    }
  }

  /** The loop of `GenerateUniqueUsernameAsync`: `taken` is the set of usernames
      in the Users table. The result is never taken; it is the local part when
      that is free, and otherwise local part plus the least counter k >= 1 whose
      name is free. The loop terminates because each test that fails uses up a
      different element of the finite set `taken`. */
  method GenerateUniqueUsername(email: string, taken: set<string>) returns (username: string)
    ensures username !in taken
    ensures IsLeastFreeName(LocalPart(email), taken, username)
  {
    var baseName := LocalPart(email);
    username := baseName;
    var counter := 1;
    ghost var tested: set<string> := {};
    while username in taken
      invariant counter >= 1
      invariant username == Attempt(baseName, counter)
      invariant forall j :: 1 <= j < counter ==> Attempt(baseName, j) in taken
      invariant forall x :: x in tested ==> exists j :: 1 <= j < counter && x == Attempt(baseName, j)
      invariant tested <= taken
      decreases taken - tested
    {
      if username in tested {
        var j :| 1 <= j < counter && username == Attempt(baseName, j);
        AttemptInjective(baseName, j, counter);
        assert false;
      }
      tested := tested + {username};
      username := baseName + Decimal(counter);
      counter := counter + 1;
    }
  }
}
