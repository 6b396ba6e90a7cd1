/**
 * The password rules of the admin profile controller: the complexity closure
 * of `changePassword` and the rest of that form's rules, and
 * `generateStrongPassword`, the temporary password mailed to every account
 * an admin creates.
 */
module Passwords {
  import opened Strings
  import opened Validation

  /** The four character classes the complexity closure looks for. */
  datatype CharClass = Upper | Lower | Digit | Symbol

  /** `[A-Z]`, `[a-z]`, `[0-9]`, and `[^A-Za-z0-9]` for everything else. */
  function ClassOf(c: char): CharClass {
    if IsUpperAscii(c) then Upper
    else if IsLowerAscii(c) then Lower
    else if IsDigit(c) then Digit
    else Symbol
  }

  /** The classes that occur in `s`. */
  function ClassesPresent(s: string): set<CharClass> {
    set i | 0 <= i < |s| :: ClassOf(s[i])
  }

  lemma {:induction false} SubsetCardinality<T>(a: set<T>, b: set<T>)
    requires a <= b
    ensures |a| <= |b|
    decreases |a|
  {
    if a != {} {
      var x :| x in a;
      SubsetCardinality(a - {x}, b - {x});
    }
  }

  /** There are only four classes to find. */
  lemma ScoreAtMostFour(s: string)
    ensures |ClassesPresent(s)| <= 4
  {
    var all := {Upper, Lower, Digit, Symbol};
    assert ClassesPresent(s) <= all by {
      forall k | k in ClassesPresent(s) ensures k in all {
        assert k.Upper? || k.Lower? || k.Digit? || k.Symbol?;
      }
    }
    SubsetCardinality(ClassesPresent(s), all);
  }

  /** `preg_match` of the class's bracket expression: some character of `s` is in class `k`. */
  predicate ContainsClass(s: string, k: CharClass) {
    exists i | 0 <= i < |s| :: ClassOf(s[i]) == k
  }

  function Hit(b: bool): nat { if b then 1 else 0 }

  function Only(b: bool, k: CharClass): set<CharClass> { if b then {k} else {} }

  /** The classes present, one test per class. */
  lemma ClassesPresentByTest(s: string)
    ensures ClassesPresent(s) ==
      Only(ContainsClass(s, Upper), Upper) + Only(ContainsClass(s, Lower), Lower) +
      Only(ContainsClass(s, Digit), Digit) + Only(ContainsClass(s, Symbol), Symbol)
  {
    var all := Only(ContainsClass(s, Upper), Upper) + Only(ContainsClass(s, Lower), Lower) +
      Only(ContainsClass(s, Digit), Digit) + Only(ContainsClass(s, Symbol), Symbol);
    forall k | k in ClassesPresent(s) ensures k in all {
      var i :| 0 <= i < |s| && ClassOf(s[i]) == k;
      assert ContainsClass(s, k);
    }
    forall k | k in all ensures k in ClassesPresent(s) {
      var i :| 0 <= i < |s| && ClassOf(s[i]) == k;
    }
  }

  lemma DistinctTestsCount(u: bool, l: bool, d: bool, o: bool)
    ensures |Only(u, Upper) + Only(l, Lower) + Only(d, Digit) + Only(o, Symbol)| ==
      Hit(u) + Hit(l) + Hit(d) + Hit(o)
  {
    var a := Only(u, Upper) + Only(l, Lower);
    assert |a| == Hit(u) + Hit(l);
    var b := a + Only(d, Digit);
    assert Digit !in a;
    assert |b| == |a| + Hit(d);
    assert Symbol !in b;
  }

  /** The classes present are counted by one test per class. */
  lemma ClassesPresentCount(s: string)
    ensures |ClassesPresent(s)| ==
      Hit(ContainsClass(s, Upper)) + Hit(ContainsClass(s, Lower)) +
      Hit(ContainsClass(s, Digit)) + Hit(ContainsClass(s, Symbol))
  {
    ClassesPresentByTest(s);
    DistinctTestsCount(ContainsClass(s, Upper), ContainsClass(s, Lower),
      ContainsClass(s, Digit), ContainsClass(s, Symbol));
  }

  /**
   * The closure inside `changePassword`: one `preg_match` per class, each
   * hit adding one to `$complexity`.  The score is the number of classes
   * present.
   */
  method ComplexityScore(s: string) returns (score: nat)
    ensures score == |ClassesPresent(s)|
  {
    score := 0;
    if ContainsClass(s, Upper) {
      score := score + 1;
    }
    if ContainsClass(s, Lower) {
      score := score + 1;
    }
    if ContainsClass(s, Digit) {
      score := score + 1;
    }
    if ContainsClass(s, Symbol) {
      score := score + 1;
    }
    ClassesPresentCount(s);
  }

  /** The `changePassword` form: `current_password`, `new_password`, `new_password_confirmation`. */
  datatype PasswordChangeForm = PasswordChangeForm(currentPassword: string, newPassword: string, confirmation: string)

  /**
   * Every rule of the form: `current_password` required; `new_password`
   * required, 6 to 24 characters, `different:current_password`, at least
   * three classes; the confirmation required and `same:new_password`.
   */
  predicate PasswordChangeValid(f: PasswordChangeForm) {
    && Required(f.currentPassword)
    && Required(f.newPassword)
    && 6 <= |f.newPassword| <= 24
    && f.newPassword != f.currentPassword
    && |ClassesPresent(f.newPassword)| >= 3
    && Required(f.confirmation)
    && f.confirmation == f.newPassword
  }

  /**
   * The form is accepted exactly when the current password is given, the new
   * one has 6 to 24 characters from at least three classes and differs from
   * the current one, and the confirmation repeats it.  The `required` rules
   * on the new password and the confirmation add nothing: three classes mean
   * a letter or a digit, which `trim` keeps.
   */
  lemma PasswordGate(f: PasswordChangeForm)
    ensures PasswordChangeValid(f) <==>
      && Required(f.currentPassword)
      && 6 <= |f.newPassword| <= 24
      && f.newPassword != f.currentPassword
      && |ClassesPresent(f.newPassword)| >= 3
      && f.confirmation == f.newPassword
  {
    if |ClassesPresent(f.newPassword)| >= 3 {
      RichPasswordIsRequired(f.newPassword);
    }
  }

  lemma RichPasswordIsRequired(s: string)
    requires |ClassesPresent(s)| >= 3
    ensures Required(s)
  {
    var present := ClassesPresent(s);
    if present <= {Symbol} {
      SubsetCardinality(present, {Symbol});
      assert false;
    }
    var k :| k in present && k != Symbol;
    var i :| 0 <= i < |s| && ClassOf(s[i]) == k;
    NonTrimCharSurvivesTrim(s, i);
    assert s[i] in Trim(s);
  }

  const Lowercase: string := "abcdefghijklmnopqrstuvwxyz"
  const Uppercase: string := "ABCDEFGHIJKLMNOPQRSTUVWXYZ"
  const Numerals: string := "0123456789"
  const Symbols: string := "!@#$%^&*()_+-=[]{}|;:,.<>?"

  /** `$characters` of `generateStrongPassword`, the same 88 characters in the same order. */
  const Alphabet: string := Lowercase + Uppercase + Numerals + Symbols

  /** The position of a character in `Alphabet`; 88 for a character outside it. */
  function AlphabetRank(c: char): nat {
    if IsLowerAscii(c) then c as int - 'a' as int
    else if IsUpperAscii(c) then 26 + (c as int - 'A' as int)
    else if IsDigit(c) then 52 + (c as int - '0' as int)
    else 62 + SymbolRank(c)
  }

  function SymbolRank(c: char): nat {
    match c
    case '!' => 0 case '@' => 1 case '#' => 2 case '$' => 3 case '%' => 4 case '^' => 5
    case '&' => 6 case '*' => 7 case '(' => 8 case ')' => 9 case '_' => 10 case '+' => 11
    case '-' => 12 case '=' => 13 case '[' => 14 case ']' => 15 case '{' => 16 case '}' => 17
    case '|' => 18 case ';' => 19 case ':' => 20 case ',' => 21 case '.' => 22 case '<' => 23
    case '>' => 24 case '?' => 25 case _ => 26
  }

  lemma LowercaseRanked(k: nat) requires k < 26 ensures AlphabetRank(Lowercase[k]) == k {}
  lemma UppercaseRanked(k: nat) requires k < 26 ensures AlphabetRank(Uppercase[k]) == 26 + k {}
  lemma NumeralsRanked(k: nat) requires k < 10 ensures AlphabetRank(Numerals[k]) == 52 + k {}
  lemma SymbolsRanked(k: nat) requires k < 26 ensures AlphabetRank(Symbols[k]) == 62 + k {}

  /** Every character of the alphabet sits at its own rank. */
  lemma AlphabetRanked(k: nat)
    requires k < |Alphabet|
    ensures AlphabetRank(Alphabet[k]) == k
  {
    if k < 26 {
      LowercaseRanked(k);
    } else if k < 52 {
      UppercaseRanked(k - 26);
    } else if k < 62 {
      NumeralsRanked(k - 52);
    } else {
      SymbolsRanked(k - 62);
    }
  }

  /** The 88 characters are pairwise distinct. */
  lemma AlphabetDistinct()
    ensures |Alphabet| == 88
    ensures forall i, j :: 0 <= i < j < |Alphabet| ==> Alphabet[i] != Alphabet[j]
  {
    forall i, j | 0 <= i < j < |Alphabet|
      ensures Alphabet[i] != Alphabet[j]
    {
      AlphabetRanked(i);
      AlphabetRanked(j);
    }
  }

  function RepeatString(s: string, n: nat): (r: string)
    ensures |r| == |s| * n
    ensures forall i :: 0 <= i < |r| ==> r[i] in s
  {
    if n == 0 then [] else s + RepeatString(s, n - 1)
  }

  /** `ceil($length / strlen($characters))` */
  function Copies(length: nat): nat {
    (length + |Alphabet| - 1) / |Alphabet|
  }

  /** The length of `str_repeat($characters, Copies(length))`. */
  function PoolSize(length: nat): nat {
    |Alphabet| * Copies(length)
  }

  /** `p` lists each position of a string of length n exactly once. */
  predicate IsPermutation(p: seq<nat>, n: nat) {
    && |p| == n
    && (forall i :: 0 <= i < n ==> p[i] < n)
    && (forall i, j :: 0 <= i < j < n ==> p[i] != p[j])
  }

  /** `str_shuffle`, with the order it draws given as a permutation of positions. */
  function Shuffle(s: string, p: seq<nat>): (r: string)
    requires IsPermutation(p, |s|)
    ensures |r| == |s| && forall i :: 0 <= i < |r| ==> r[i] == s[p[i]]
  {
    seq(|s|, i requires 0 <= i < |s| => s[p[i]])
  }

  /**
   * `substr(str_shuffle(str_repeat($characters, ceil($length / 88))), 0, $length)`.
   * The result has the requested length and uses only the alphabet; when
   * `length` is at most 88 the alphabet is laid out once, so no character
   * repeats (the password is drawn without replacement).
   */
  function GenerateStrongPassword(length: nat, shuffle: seq<nat>): (pw: string)
    requires IsPermutation(shuffle, PoolSize(length))
    ensures |pw| == length
    ensures forall i :: 0 <= i < length ==> pw[i] in Alphabet
    ensures length <= |Alphabet| ==> forall i, j :: 0 <= i < j < length ==> pw[i] != pw[j]
  {
    var pool := RepeatString(Alphabet, Copies(length));
    assert |pool| >= length;
    AlphabetDistinct();
    assert 0 < length <= |Alphabet| ==> Copies(length) == 1 && pool == Alphabet + [] == Alphabet;
    Shuffle(pool, shuffle)[..length]
  }

  /** The size of the draw `register`, `store` and `adminstore` make. */
  const TemporaryPasswordLength: nat := 16

  /**
   * A temporary password need not pass the complexity gate of
   * `changePassword`: a shuffle that puts sixteen lower-case letters first
   * yields a password of one class.
   */
  lemma TemporaryPasswordMayBeWeak()
    ensures PoolSize(TemporaryPasswordLength) == |Alphabet|
    ensures exists p :: (IsPermutation(p, |Alphabet|) &&
      |ClassesPresent(GenerateStrongPassword(TemporaryPasswordLength, p))| == 1)
  {
    var p := seq(|Alphabet|, i => i);
    var pw := GenerateStrongPassword(TemporaryPasswordLength, p);
    forall i | 0 <= i < 16 ensures pw[i] == Lowercase[i] {
      assert pw[i] == RepeatString(Alphabet, 1)[i];
    }
    assert ClassesPresent(pw) == {Lower} by {
      forall k | k in ClassesPresent(pw) ensures k == Lower {
        var i :| 0 <= i < |pw| && ClassOf(pw[i]) == k;
        LowercaseRanked(i);
      }
      assert ClassOf(pw[0]) == Lower;
    }
  }
}
