/**
 * The SHA-1 dictionary attack (`sha1passwordcracker-project/password_cracker.py`).
 *
 * The two word lists are the raw lines of `top-10000-passwords.txt` and
 * `known-salts.txt`, given as parameters instead of being read from disk;
 * `sha1(x)` stands for `hashlib.sha1(x.encode()).hexdigest()`, a function
 * the model does not compute.
 */
module PasswordCracker {
  import opened Wrappers
  import opened Text

  const NotInDatabase: string := "PASSWORD NOT IN DATABASE"

  /** One attempt: the string that is hashed, and the password returned if it matches. */
  datatype Attempt = Attempt(candidate: string, password: string)

  /** `[line.strip() for line in f]`. */
  function Entries(lines: seq<string>): (r: seq<string>)
    ensures |r| == |lines| && forall k :: 0 <= k < |lines| ==> r[k] == Strip(lines[k])
  {
    seq(|lines|, k requires 0 <= k < |lines| => Strip(lines[k]))
  }

  /** The attempts of the inner loop for one password: for each salt, salt first, then
      salt last. */
  function SaltedAttempts(password: string, salts: seq<string>): (r: seq<Attempt>)
    ensures |r| == 2 * |salts|
    decreases |salts|
  {
    if |salts| == 0 then []
    else [Attempt(salts[0] + password, password), Attempt(password + salts[0], password)]
         + SaltedAttempts(password, salts[1..])
  }

  /** Every attempt of the search, in the order the loops make them: one per password
      without salts, two per password and salt with them. */
  function Attempts(passwords: seq<string>, salts: seq<string>, useSalts: bool): (r: seq<Attempt>)
    ensures !useSalts ==> |r| == |passwords|
    ensures useSalts ==> |r| == 2 * |passwords| * |salts|
    decreases |passwords|
  {
    if |passwords| == 0 then []
    else
      var rest := Attempts(passwords[1..], salts, useSalts);
      assert 2 * |passwords| * |salts| == 2 * |salts| + 2 * |passwords[1..]| * |salts|;
      (if useSalts then SaltedAttempts(passwords[0], salts) else [Attempt(passwords[0], passwords[0])]) + rest
  }

  /** The attempt's digest equals the target. */
  predicate Hits(a: Attempt, hash: string, sha1: string -> string) {
    sha1(a.candidate) == hash
  }

  /** The password of the first attempt that hits, if any: a found password is the
      password of an attempt whose digest matches. */
  function FirstHit(attempts: seq<Attempt>, hash: string, sha1: string -> string): (h: Option<string>)
    ensures h.Some? ==>
      exists k :: 0 <= k < |attempts| && Hits(attempts[k], hash, sha1) && attempts[k].password == h.value
    decreases |attempts|
  {
    if |attempts| == 0 then None
    else if Hits(attempts[0], hash, sha1) then Some(attempts[0].password)
    else
      var h := FirstHit(attempts[1..], hash, sha1);
      assert h.Some? ==>
        exists k :: 0 <= k < |attempts| && Hits(attempts[k], hash, sha1) && attempts[k].password == h.value
      by {
        if h.Some? {
          var k :| 0 <= k < |attempts[1..]| && Hits(attempts[1..][k], hash, sha1) && attempts[1..][k].password == h.value;
          assert attempts[k + 1] == attempts[1..][k];
        }
      }
      h
  }

  /** What `crack_sha1_hash(hash, use_salts)` returns for these file contents: an entry of
      the password list (a stripped line), or `PASSWORD NOT IN DATABASE`. */
  function Crack(hash: string, useSalts: bool, passwordLines: seq<string>, saltLines: seq<string>,
                 sha1: string -> string): (r: string)
    ensures r == NotInDatabase || r in Entries(passwordLines)
  {
    var passwords := Entries(passwordLines);
    var salts := Entries(saltLines);
    var attempts := Attempts(passwords, salts, useSalts);
    match FirstHit(attempts, hash, sha1)
    case Some(p) =>
      AttemptsComeFromLists(passwords, salts, useSalts);
      p
    case None => NotInDatabase
  }

  /** `crack_sha1_hash`: for each password in file order, either hash it alone or, with
      salts, try each salt before and after it; return the first password whose digest
      matches. */
  method CrackSha1Hash(hash: string, useSalts: bool, passwordLines: seq<string>, saltLines: seq<string>,
                       sha1: string -> string)
    returns (result: string)
    ensures result == Crack(hash, useSalts, passwordLines, saltLines, sha1)
  {
    var passwords := Entries(passwordLines);
    ghost var salts := Entries(saltLines);
    ghost var all := Attempts(passwords, salts, useSalts);
    assert passwords[0..] == passwords;
    if useSalts {
      var saltList := Entries(saltLines);
      var i := 0;
      while i < |passwords|
        invariant 0 <= i <= |passwords|
        invariant FirstHit(all, hash, sha1) == FirstHit(Attempts(passwords[i..], salts, true), hash, sha1)
      {
        var password := passwords[i];
        SaltedPasswordStep(passwords, salts, i, hash, sha1);
        var found := TrySalts(password, saltList, hash, sha1);
        if found {
          return password;
        }
        i := i + 1;
      }
      NoAttemptsLeft(passwords, salts, true);
    } else {
      var i := 0;
      while i < |passwords|
        invariant 0 <= i <= |passwords|
        invariant FirstHit(all, hash, sha1) == FirstHit(Attempts(passwords[i..], salts, false), hash, sha1)
      {
        var password := passwords[i];
        UnsaltedStep(passwords, salts, i, hash, sha1);
        var hashed := sha1(password);
        if hashed == hash {
          return password;
        }
        i := i + 1;
      }
      NoAttemptsLeft(passwords, salts, false);
    }
    assert FirstHit(all, hash, sha1).None?;
    return NotInDatabase;
  }

  /** The inner loop of the salted search for one password: each salt prefixed, then
      appended; reports whether any of these digests matches. */
  method TrySalts(password: string, salts: seq<string>, hash: string, sha1: string -> string)
    returns (found: bool)
    ensures found == FirstHit(SaltedAttempts(password, salts), hash, sha1).Some?
  {
    assert salts[0..] == salts;
    var j := 0;
    while j < |salts|
      invariant 0 <= j <= |salts|
      invariant FirstHit(SaltedAttempts(password, salts), hash, sha1)
        == FirstHit(SaltedAttempts(password, salts[j..]), hash, sha1)
    {
      var salt := salts[j];
      SaltedStep(password, salts, j, hash, sha1);
      var saltedPassword := salt + password;
      var hashed := sha1(saltedPassword);
      if hashed == hash {
        return true;
      }
      saltedPassword := password + salt;
      hashed := sha1(saltedPassword);
      if hashed == hash {
        return true;
      }
      j := j + 1;
    }
    assert salts[j..] == [];
    return false;
  }

  /** One turn of the outer salted loop: the password's salted attempts decide the answer
      if any of them hits, otherwise the later passwords do. */
  lemma SaltedPasswordStep(passwords: seq<string>, salts: seq<string>, i: nat, hash: string, sha1: string -> string)
    requires i < |passwords|
    ensures var mine := FirstHit(SaltedAttempts(passwords[i], salts), hash, sha1);
      FirstHit(Attempts(passwords[i..], salts, true), hash, sha1)
      == if mine.Some? then Some(passwords[i]) else FirstHit(Attempts(passwords[i + 1..], salts, true), hash, sha1)
  {
    AttemptsFrom(passwords, salts, true, i);
    FirstHitAppend(SaltedAttempts(passwords[i], salts), Attempts(passwords[i + 1..], salts, true), hash, sha1);
    SaltedHitIsPassword(passwords[i], salts, hash, sha1);
  }

  /** The first hit of a concatenation is the first hit of the front part, if it has one. */
  lemma {:induction false} FirstHitAppend(a: seq<Attempt>, b: seq<Attempt>, hash: string, sha1: string -> string)
    ensures FirstHit(a + b, hash, sha1) == if FirstHit(a, hash, sha1).Some? then FirstHit(a, hash, sha1) else FirstHit(b, hash, sha1)
    decreases |a|
  {
    if |a| == 0 {
      assert a + b == b;
    } else {
      assert (a + b)[0] == a[0];
      assert (a + b)[1..] == a[1..] + b;
      FirstHitAppend(a[1..], b, hash, sha1);
    }
  }

  /** Every salted attempt for a password returns that password. */
  lemma {:induction false} SaltedHitIsPassword(password: string, salts: seq<string>, hash: string, sha1: string -> string)
    ensures FirstHit(SaltedAttempts(password, salts), hash, sha1).Some? ==>
      FirstHit(SaltedAttempts(password, salts), hash, sha1).value == password
    decreases |salts|
  {
    if |salts| > 0 {
      SaltedHitIsPassword(password, salts[1..], hash, sha1);
      var rest := SaltedAttempts(password, salts[1..]);
      var both := [Attempt(salts[0] + password, password), Attempt(password + salts[0], password)];
      assert SaltedAttempts(password, salts) == both + rest;
      FirstHitAppend(both, rest, hash, sha1);
      assert both[1..] == [Attempt(password + salts[0], password)];
      assert both[1..][1..] == [];
    }
  }

  /** Past the last password nothing is left to try. */
  lemma NoAttemptsLeft(passwords: seq<string>, salts: seq<string>, useSalts: bool)
    ensures Attempts(passwords[|passwords|..], salts, useSalts) == []
  {
    assert passwords[|passwords|..] == [];
  }

  /** One turn of the loop without salts: the password itself, then the later ones. */
  lemma UnsaltedStep(passwords: seq<string>, salts: seq<string>, i: nat, hash: string, sha1: string -> string)
    requires i < |passwords|
    ensures FirstHit(Attempts(passwords[i..], salts, false), hash, sha1)
      == if sha1(passwords[i]) == hash then Some(passwords[i])
         else FirstHit(Attempts(passwords[i + 1..], salts, false), hash, sha1)
  {
    AttemptsFrom(passwords, salts, false, i);
    var rest := Attempts(passwords[i + 1..], salts, false);
    assert ([Attempt(passwords[i], passwords[i])] + rest)[1..] == rest;
  }

  /** The attempts from password `i` on: that password's own, then the rest. */
  lemma AttemptsFrom(passwords: seq<string>, salts: seq<string>, useSalts: bool, i: nat)
    requires i < |passwords|
    ensures Attempts(passwords[i..], salts, useSalts)
      == (if useSalts then SaltedAttempts(passwords[i], salts) else [Attempt(passwords[i], passwords[i])])
         + Attempts(passwords[i + 1..], salts, useSalts)
  {
    assert passwords[i..][1..] == passwords[i + 1..];
  }

  /** One turn of the inner loop: salt first, then salt last, then the remaining salts. */
  lemma SaltedStep(password: string, salts: seq<string>, j: nat, hash: string, sha1: string -> string)
    requires j < |salts|
    ensures FirstHit(SaltedAttempts(password, salts[j..]), hash, sha1)
      == if sha1(salts[j] + password) == hash then Some(password)
         else if sha1(password + salts[j]) == hash then Some(password)
         else FirstHit(SaltedAttempts(password, salts[j + 1..]), hash, sha1)
  {
    var rest := SaltedAttempts(password, salts[j + 1..]);
    assert salts[j..][1..] == salts[j + 1..];
    var here := SaltedAttempts(password, salts[j..]);
    assert here == [Attempt(salts[j] + password, password), Attempt(password + salts[j], password)] + rest;
    assert here[1..] == [Attempt(password + salts[j], password)] + rest;
    assert here[1..][1..] == rest;
  }

  /** The search returns the first hit: nothing is found exactly when no attempt hits, and
      an attempt that hits after a run of misses decides the answer. */
  lemma {:induction false} FirstHitIsFirst(attempts: seq<Attempt>, hash: string, sha1: string -> string)
    ensures FirstHit(attempts, hash, sha1).None? <==> forall k :: 0 <= k < |attempts| ==> !Hits(attempts[k], hash, sha1)
    ensures forall k :: 0 <= k < |attempts| && Hits(attempts[k], hash, sha1)
                        && (forall m :: 0 <= m < k ==> !Hits(attempts[m], hash, sha1)) ==>
      FirstHit(attempts, hash, sha1) == Some(attempts[k].password)
    decreases |attempts|
  {
    if |attempts| > 0 {
      var tail := attempts[1..];
      FirstHitIsFirst(tail, hash, sha1);
      forall k | 0 <= k < |attempts| && Hits(attempts[k], hash, sha1)
                 && (forall m :: 0 <= m < k ==> !Hits(attempts[m], hash, sha1))
        ensures FirstHit(attempts, hash, sha1) == Some(attempts[k].password)
      {
        if k > 0 {
          assert !Hits(attempts[0], hash, sha1);
          assert tail[k - 1] == attempts[k];
          forall m | 0 <= m < k - 1 ensures !Hits(tail[m], hash, sha1) {
            assert tail[m] == attempts[m + 1];
          }
        }
      }
      if !Hits(attempts[0], hash, sha1) && FirstHit(tail, hash, sha1).Some? {
        var k :| 0 <= k < |tail| && Hits(tail[k], hash, sha1);
        assert attempts[k + 1] == tail[k];
      }
      if forall k :: 0 <= k < |attempts| ==> !Hits(attempts[k], hash, sha1) {
        forall k | 0 <= k < |tail| ensures !Hits(tail[k], hash, sha1) {
          assert tail[k] == attempts[k + 1];
        }
      }
    }
  }

  /** The inner loop's order: salt `j` is tried first before and then after the password. */
  lemma {:induction false} SaltedAttemptsOrder(password: string, salts: seq<string>, j: nat)
    requires j < |salts|
    ensures SaltedAttempts(password, salts)[2 * j] == Attempt(salts[j] + password, password)
    ensures SaltedAttempts(password, salts)[2 * j + 1] == Attempt(password + salts[j], password)
    decreases j
  {
    if j > 0 {
      SaltedAttemptsOrder(password, salts[1..], j - 1);
      assert salts[1..][j - 1] == salts[j];
    }
  }

  /** The attempts for a list of passwords are those for its front part, then those for
      the rest. */
  lemma {:induction false} AttemptsAppend(a: seq<string>, b: seq<string>, salts: seq<string>, useSalts: bool)
    ensures Attempts(a + b, salts, useSalts) == Attempts(a, salts, useSalts) + Attempts(b, salts, useSalts)
    decreases |a|
  {
    if |a| == 0 {
      assert a + b == b;
    } else {
      assert (a + b)[0] == a[0];
      assert (a + b)[1..] == a[1..] + b;
      AttemptsAppend(a[1..], b, salts, useSalts);
    }
  }

  /** The whole search order with salts: the attempts for password `i` come right after all
      attempts for the passwords before it (two per password and salt), and among them salt
      `j` is tried at offset `2 * j` prefixed and at the next offset appended. So every salt
      is tried with a password before the next password is tried at all. */
  lemma SaltedSearchOrder(passwords: seq<string>, salts: seq<string>, i: nat, j: nat)
    requires i < |passwords| && j < |salts|
    ensures var before := |Attempts(passwords[..i], salts, true)|;
      var all := Attempts(passwords, salts, true);
      && before == 2 * i * |salts|
      && before + 2 * j + 1 < |all|
      && all[before + 2 * j] == Attempt(salts[j] + passwords[i], passwords[i])
      && all[before + 2 * j + 1] == Attempt(passwords[i] + salts[j], passwords[i])
  {
    var front := Attempts(passwords[..i], salts, true);
    var mine := SaltedAttempts(passwords[i], salts);
    var later := Attempts(passwords[i + 1..], salts, true);
    assert passwords == passwords[..i] + passwords[i..];
    AttemptsAppend(passwords[..i], passwords[i..], salts, true);
    AttemptsFrom(passwords, salts, true, i);
    SaltedAttemptsOrder(passwords[i], salts, j);
    var all := front + (mine + later);
    assert all[|front| + 2 * j] == mine[2 * j];
    assert all[|front| + 2 * j + 1] == mine[2 * j + 1];
  }

  /** Without salts, password `i` is hashed alone at position `i`. */
  lemma {:induction false} UnsaltedSearchOrder(passwords: seq<string>, salts: seq<string>, i: nat)
    requires i < |passwords|
    ensures |Attempts(passwords, salts, false)| == |passwords|
    ensures Attempts(passwords, salts, false)[i] == Attempt(passwords[i], passwords[i])
    decreases |passwords|
  {
    if i > 0 {
      UnsaltedSearchOrder(passwords[1..], salts, i - 1);
      assert passwords[1..][i - 1] == passwords[i];
    } else if |passwords| > 1 {
      UnsaltedSearchOrder(passwords[1..], salts, 0);
    }
  }

  /** Every attempt returns a password from the list, and hashes either that password
      alone (without salts) or that password joined to a listed salt on one side. */
  lemma {:induction false} AttemptsComeFromLists(passwords: seq<string>, salts: seq<string>, useSalts: bool)
    ensures forall a :: a in Attempts(passwords, salts, useSalts) ==>
      a.password in passwords
      && (if useSalts
          then exists s :: s in salts && (a.candidate == s + a.password || a.candidate == a.password + s)
          else a.candidate == a.password)
    decreases |passwords|
  {
    if |passwords| > 0 {
      AttemptsComeFromLists(passwords[1..], salts, useSalts);
      if useSalts {
        SaltedAttemptsFromSalts(passwords[0], salts);
      }
    }
  }

  lemma {:induction false} SaltedAttemptsFromSalts(password: string, salts: seq<string>)
    ensures forall a :: a in SaltedAttempts(password, salts) ==>
      a.password == password && exists s :: s in salts && (a.candidate == s + password || a.candidate == password + s)
    decreases |salts|
  {
    if |salts| > 0 {
      SaltedAttemptsFromSalts(password, salts[1..]);
    }
  }

  /** With salt mode on and no empty salt, the bare password is never hashed: a digest of an
      unsalted password is not found in salt mode. */
  lemma SaltedNeverTriesBare(passwords: seq<string>, salts: seq<string>)
    requires forall k :: 0 <= k < |salts| ==> |salts[k]| > 0
    ensures forall a :: a in Attempts(passwords, salts, true) ==> a.candidate != a.password
  {
    AttemptsComeFromLists(passwords, salts, true);
    forall a | a in Attempts(passwords, salts, true) ensures a.candidate != a.password {
      var s :| s in salts && (a.candidate == s + a.password || a.candidate == a.password + s);
      assert |a.candidate| == |s| + |a.password|;
    }
  }
}
