/**
 * The sign-up page's two helpers: the password-strength meter shown under the
 * password field, and the split of the "Full Name" field into the first and
 * last names sent to registration.
 */
module SignupPage {

  /** The meter's reading: a percentage, its label and its bar colour. */
  datatype Strength = Strength(strength: int, text: string, color: string)

  /**
   * JavaScript's `s.length`: the number of UTF-16 code units, one for a
   * character of the Basic Multilingual Plane and two (a surrogate pair) for
   * any character above it.
   */
  function Utf16Length(s: string): (r: nat)
    ensures |s| <= r <= 2 * |s|
  {
    if s == [] then 0 else Utf16Length(s[..|s| - 1]) + (if s[|s| - 1] as int >= 0x1_0000 then 2 else 1)
  }

  /** The code-unit length of a concatenation is the sum of the parts' lengths. */
  lemma {:induction false} Utf16LengthAppend(a: string, b: string)
    ensures Utf16Length(a + b) == Utf16Length(a) + Utf16Length(b)
    decreases |b|
  {
    if b == [] {
      assert a + b == a;
    } else {
      var init := b[..|b| - 1];
      assert (a + b)[..|a + b| - 1] == a + init;
      assert (a + b)[|a + b| - 1] == b[|b| - 1];
      Utf16LengthAppend(a, init);
    }
  }

  /** A text of Basic Multilingual Plane characters has as many code units as characters. */
  lemma {:induction false} Utf16LengthOfBmp(s: string)
    requires forall i | 0 <= i < |s| :: s[i] as int < 0x1_0000
    ensures Utf16Length(s) == |s|
    decreases |s|
  {
    if s != [] {
      Utf16LengthOfBmp(s[..|s| - 1]);
    }
  }

  /**
   * `passwordStrength`: nothing for an empty password, "Weak" below 6
   * code units, "Medium" below 10, "Strong" from 10 on.
   */
  function PasswordStrength(password: string): (r: Strength)
    ensures 0 <= r.strength <= 100
    ensures r.strength == 0 <==> |password| == 0
    ensures r.strength == 100 <==> Utf16Length(password) >= 10
    ensures r.text == "" <==> r.strength == 0
  {
    var n := Utf16Length(password);
    if n == 0 then Strength(0, "", "")
    else if n < 6 then Strength(33, "Weak", "bg-red-600")
    else if n < 10 then Strength(66, "Medium", "bg-yellow-600")
    else Strength(100, "Strong", "bg-green-600")
  }

  /** A longer password never reads weaker. */
  lemma StrengthMonotone(p: string, q: string)
    requires Utf16Length(p) <= Utf16Length(q)
    ensures PasswordStrength(p).strength <= PasswordStrength(q).strength
  {
  }

  /** Typing more characters never makes the meter read weaker. */
  lemma StrengthGrowsWhileTyping(p: string, more: string)
    ensures PasswordStrength(p).strength <= PasswordStrength(p + more).strength
  {
    Utf16LengthAppend(p, more);
  }

  /** Each length band has its own label. */
  lemma StrengthBands(password: string)
    ensures 1 <= Utf16Length(password) <= 5 <==> PasswordStrength(password) == Strength(33, "Weak", "bg-red-600")
    ensures 6 <= Utf16Length(password) <= 9 <==> PasswordStrength(password) == Strength(66, "Medium", "bg-yellow-600")
  {
  }

  /** Three characters outside the Basic Multilingual Plane are six code units: a "Medium" password. */
  lemma AstralCharactersCountTwice()
    ensures PasswordStrength("\U{1F600}\U{1F600}\U{1F600}").text == "Medium"
  {
    var c := '\U{1F600}';
    assert c as int >= 0x1_0000;
    assert Utf16Length([c]) == 2 by {
      assert [c][..0] == [];
    }
    assert Utf16Length([c, c]) == 4 by {
      assert [c, c][..1] == [c];
    }
    assert Utf16Length([c, c, c]) == 6 by {
      assert [c, c, c][..2] == [c, c];
    }
    assert "\U{1F600}\U{1F600}\U{1F600}" == [c, c, c];
  }

  /** JavaScript's `s.split(' ')`: the pieces between the spaces, an empty piece where two spaces meet. */
  function Split(s: string): (r: seq<string>)
    ensures |r| >= 1
    ensures forall i | 0 <= i < |r| :: ' ' !in r[i]
    decreases |s|
  {
    if ' ' !in s then [s]
    else
      var i := FirstSpace(s);
      [s[..i]] + Split(s[i + 1..])
  }

  /** The position of the first space. */
  function FirstSpace(s: string): (i: nat)
    requires ' ' in s
    ensures i < |s| && s[i] == ' ' && ' ' !in s[..i]
  {
    if s[0] == ' ' then 0
    else
      assert ' ' in s[1..] by {
        var k :| 0 <= k < |s| && s[k] == ' ';
        assert s[1..][k - 1] == ' ';
      }
      var j := FirstSpace(s[1..]);
      assert s[..j + 1] == [s[0]] + s[1..][..j];
      j + 1
  }

  /** JavaScript's `parts.join(' ')`. */
  function Join(parts: seq<string>): string {
    if parts == [] then ""
    else if |parts| == 1 then parts[0]
    else parts[0] + " " + Join(parts[1..])
  }

  /** Joining the pieces with spaces gives the text back. */
  lemma {:induction false} JoinSplit(s: string)
    ensures Join(Split(s)) == s
    decreases |s|
  {
    if ' ' in s {
      var i := FirstSpace(s);
      JoinSplit(s[i + 1..]);
      assert s == s[..i] + " " + s[i + 1..];
    }
  }

  /** The names sent to registration. */
  datatype NameParts = NameParts(firstName: string, lastName: string)

  /**
   * `handleSubmit`'s split: the first name is the first piece, the last name
   * the other pieces joined with spaces (`|| ''` changes nothing, both are
   * strings already).
   */
  function SplitName(name: string): NameParts {
    var parts := Split(name);
    NameParts(parts[0], Join(parts[1..]))
  }

  /**
   * The first name is the text before the first space, or all of it when
   * there is none; the last name is everything after the first space, or ""
   * when there is none; with a space, first name, space and last name make
   * the full name again.
   */
  lemma SplitNameParts(name: string)
    ensures ' ' !in name ==> SplitName(name) == NameParts(name, "")
    ensures ' ' in name ==>
      var i := FirstSpace(name);
      SplitName(name) == NameParts(name[..i], name[i + 1..])
    ensures ' ' in name ==> SplitName(name).firstName + " " + SplitName(name).lastName == name
    ensures ' ' !in SplitName(name).firstName
  {
    if ' ' in name {
      SplitAtSpace(name);
    }
  }

  /** With a space, the names are the text before and after the first one. */
  lemma SplitAtSpace(name: string)
    requires ' ' in name
    ensures var i := FirstSpace(name);
      && SplitName(name) == NameParts(name[..i], name[i + 1..])
      && name == name[..i] + " " + name[i + 1..]
  {
    var i := FirstSpace(name);
    var parts := Split(name);
    assert parts == [name[..i]] + Split(name[i + 1..]);
    assert parts[1..] == Split(name[i + 1..]);
    JoinSplit(name[i + 1..]);
    assert name == name[..i] + " " + name[i + 1..];
  }
}
