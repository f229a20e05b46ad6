// UserUtils: user-name lookups and the generation of a user name that no
// stored user has yet.
module UserUtils {
  import opened Common
  import opened Model
  import opened Store

  /** The user names the repository holds. */
  function TakenNames(users: map<Uuid, User>): (r: set<string>)
    ensures forall name :: name in r <==> exists k :: k in users && users[k].userName == Some(name)
  {
    set k | k in users && users[k].userName.Some? :: users[k].userName.value
  }

  /** userAlreadyExists: `findByUserName` finds a user. */
  predicate UserAlreadyExists(users: map<Uuid, User>, userName: string)
  {
    userName in TakenNames(users)
  }

  /** A character `\w` matches, without the Unicode flag: an ASCII letter, digit or underscore. */
  predicate IsWordChar(c: char)
  {
    'a' <= c <= 'z' || 'A' <= c <= 'Z' || '0' <= c <= '9' || c == '_'
  }

  function LowerChar(c: char): char
  {
    if 'A' <= c <= 'Z' then (c as int - 'A' as int + 'a' as int) as char else c
  }

  /** `toLowerCase` on text made of word characters only. */
  function Lower(s: string): (r: string)
    ensures |r| == |s|
  {
    seq(|s|, i requires 0 <= i < |s| => LowerChar(s[i]))
  }

  /**
   * The base name: the first name (or "a") followed by the last name (or
   * nothing), with every non-word character removed, in lower case.
   */
  function BaseName(firstName: Option<string>, lastName: Option<string>): string
  {
    Lower(Filter(GetOrDefault(firstName, "a") + GetOrDefault(lastName, ""), IsWordChar))
  }

  /** The base name holds only lower-case letters, digits and underscores, one per word character of the names. */
  lemma BaseNameShape(firstName: Option<string>, lastName: Option<string>)
    ensures var base := BaseName(firstName, lastName);
            var full := GetOrDefault(firstName, "a") + GetOrDefault(lastName, "");
            |base| == |Filter(full, IsWordChar)| &&
            (forall i :: 0 <= i < |base| ==> 'a' <= base[i] <= 'z' || '0' <= base[i] <= '9' || base[i] == '_') &&
            (firstName.None? && lastName.None? ==> base == "a")
  {
    var full := GetOrDefault(firstName, "a") + GetOrDefault(lastName, "");
    var kept := Filter(full, IsWordChar);
    FilterMembers(full, IsWordChar);
    forall i | 0 <= i < |kept| ensures IsWordChar(kept[i]) {
      assert kept[i] in kept;
    }
    if firstName.None? && lastName.None? {
      assert full == "a";
      assert kept == ['a'] + Filter("", IsWordChar);
    }
  }

  /** The i-th candidate after the base name itself. */
  function Candidate(base: string, n: nat): string
  {
    if n == 0 then base else base + NatToString(n)
  }

  lemma {:induction false} DigitCharInjective(a: nat, b: nat)
    requires a < 10 && b < 10 && DigitChar(a) == DigitChar(b)
    ensures a == b
  {
    var digits := "0123456789";
    assert forall d :: 0 <= d < 10 ==> digits[d] as int == '0' as int + d;
  }

  /** Different numbers have different decimal text. */
  lemma {:induction false} NatToStringInjective(a: nat, b: nat)
    requires NatToString(a) == NatToString(b)
    ensures a == b
    decreases a
  {
    if a >= 10 {
      NatToStringLength(a, 1);
    }
    if b >= 10 {
      NatToStringLength(b, 1);
    }
    if a < 10 && b < 10 {
      DigitCharInjective(a, b);
    } else if a >= 10 && b >= 10 {
      var sa, sb := NatToString(a), NatToString(b);
      assert sa[|sa| - 1] == DigitChar(a % 10) && sb[|sb| - 1] == DigitChar(b % 10);
      DigitCharInjective(a % 10, b % 10);
      assert sa[..|sa| - 1] == NatToString(a / 10) && sb[..|sb| - 1] == NatToString(b / 10);
      NatToStringInjective(a / 10, b / 10);
    }
  }

  /** The numbered candidates 1..n are n different names. */
  lemma {:induction false} CandidatesCount(base: string, n: nat)
    ensures |set i | 1 <= i <= n :: Candidate(base, i)| == n
  {
    if n > 0 {
      CandidatesCount(base, n - 1);
      var before := set i | 1 <= i <= n - 1 :: Candidate(base, i);
      assert (set i | 1 <= i <= n :: Candidate(base, i)) == before + {Candidate(base, n)};
      if Candidate(base, n) in before {
        var i :| 1 <= i <= n - 1 && Candidate(base, i) == Candidate(base, n);
        assert (base + NatToString(i))[|base|..] == NatToString(i);
        assert (base + NatToString(n))[|base|..] == NatToString(n);
        NatToStringInjective(i, n);
      }
    }
  }

  /**
   * The name generateUsername picks: the base name when no user has it,
   * otherwise the base name followed by the smallest number n >= 1 that
   * gives a free name.
   */
  ghost predicate IsGeneratedName(users: map<Uuid, User>, firstName: Option<string>, lastName: Option<string>,
                                  name: string)
  {
    !UserAlreadyExists(users, name) &&
    exists n: nat :: name == Candidate(BaseName(firstName, lastName), n) &&
                     forall i :: 0 <= i < n ==> UserAlreadyExists(users, Candidate(BaseName(firstName, lastName), i))
  }

  /**
   * generateUsername: tries the candidates in order until one is free. The
   * search ends because the repository holds finitely many names.
   */
  method GenerateUsername(db: Repositories, firstName: Option<string>, lastName: Option<string>) returns (name: string)
    ensures IsGeneratedName(db.users, firstName, lastName, name)
  {
    var base := BaseName(firstName, lastName);
    ghost var taken := TakenNames(db.users);
    name := base;
    var appendValue: nat := 0;
    while UserAlreadyExists(db.users, name)
      invariant name == Candidate(base, appendValue)
      invariant forall i :: 0 <= i < appendValue ==> UserAlreadyExists(db.users, Candidate(base, i))
      decreases |taken| + 1 - appendValue
    {
      assert (set i | 1 <= i <= appendValue :: Candidate(base, i)) <= taken;
      CandidatesCount(base, appendValue);
      SubsetSize(set i | 1 <= i <= appendValue :: Candidate(base, i), taken);
      appendValue := appendValue + 1;
      name := base + NatToString(appendValue);
    }
  }
}
