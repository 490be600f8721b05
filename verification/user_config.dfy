/**
 The user-scoped names of the configuration notebook: the SQL-safe user
 name derived from the signed-in e-mail address, the per-user database
 name, and the per-user scratch path below the fixed base location.
 */
module UserConfig {

  /** The base location of the demo's files. */
  const BaseLocation: string := "dbfs:/tmp/demand_forecast/"

  /** The file-system scheme the scratch path drops. */
  const Scheme: string := "dbfs:"

  /** The fixed head of every per-user database name. */
  const DatabasePrefix: string := "fine_grain_forecast_"

  // ---- The part of the address before the first '@' ----

  /** `email.split('@')[0]`: everything before the first `@`, or the whole
      text when there is none. */
  function LocalPart(email: string): (l: string)
    ensures '@' !in l
    ensures l <= email
    ensures |l| < |email| ==> email[|l|] == '@'
  {
    if |email| == 0 || email[0] == '@' then ""
    else [email[0]] + LocalPart(email[1..])
  }

  /** The three properties above pin the local part down: it is the longest
      prefix without an `@`. */
  lemma {:induction false} LocalPartUnique(email: string, l: string)
    requires '@' !in l && l <= email && (|l| < |email| ==> email[|l|] == '@')
    ensures l == LocalPart(email)
    decreases |email|
  {
    if |l| > 0 {
      assert l[0] == email[0];
      assert l[1..] <= email[1..];
      LocalPartUnique(email[1..], l[1..]);
    } else if |email| > 0 {
      assert email[0] == '@';
    }
  }

  /** Splitting `user@domain` gives back `user`. */
  lemma LocalPartOfAddress(user: string, domain: string)
    requires '@' !in user
    ensures LocalPart(user + "@" + domain) == user
  {
    var email := user + "@" + domain;
    assert user <= email;
    assert email[|user|] == '@';
    LocalPartUnique(email, user);
  }

  // ---- re.sub('\W', '_', ...) ----

  /** A word character of the ASCII range: a letter, a digit or `_`. */
  predicate IsWordChar(c: char) {
    ('a' <= c <= 'z') || ('A' <= c <= 'Z') || ('0' <= c <= '9') || c == '_'
  }

  /** Replaces every non-word character by `_`, leaving word characters in place. */
  function Sanitize(s: string): (r: string)
    ensures |r| == |s|
    ensures forall i :: 0 <= i < |s| ==> IsWordChar(r[i])
    ensures forall i :: 0 <= i < |s| && IsWordChar(s[i]) ==> r[i] == s[i]
    ensures forall i :: 0 <= i < |s| && !IsWordChar(s[i]) ==> r[i] == '_'
  {
    if |s| == 0 then ""
    else [if IsWordChar(s[0]) then s[0] else '_'] + Sanitize(s[1..])
  }

  predicate AllWordChars(s: string) {
    forall i :: 0 <= i < |s| ==> IsWordChar(s[i])
  }

  /** Sanitizing changes a text exactly when it holds a non-word character. */
  lemma SanitizeFixedPoints(s: string)
    ensures Sanitize(s) == s <==> AllWordChars(s)
  {
    if AllWordChars(s) {
      assert forall i :: 0 <= i < |s| ==> Sanitize(s)[i] == s[i];
    }
  }

  /** Sanitizing twice is sanitizing once. */
  lemma SanitizeIdempotent(s: string)
    ensures Sanitize(Sanitize(s)) == Sanitize(s)
  {
    SanitizeFixedPoints(Sanitize(s));
  }

  // ---- Names derived from the address ----

  /** `username_sql_compatible`: the local part, with each word character kept
      in place and every other character turned into `_`. */
  function UsernameSqlCompatible(email: string): (u: string)
    ensures AllWordChars(u)
    ensures |u| == |LocalPart(email)|
    ensures forall i :: 0 <= i < |u| ==>
              u[i] == (if IsWordChar(LocalPart(email)[i]) then LocalPart(email)[i] else '_')
  {
    Sanitize(LocalPart(email))
  }

  /** `database_name`: a plain SQL identifier, whatever the address holds. */
  function DatabaseName(email: string): (n: string)
    ensures AllWordChars(n)
    ensures DatabasePrefix <= n
  {
    var u := UsernameSqlCompatible(email);
    DatabasePrefix + u
  }

  /** Different addresses can share a database name: the domain is dropped
      and punctuation becomes `_`, so `a.b@x` and `a_b@y` collide. */
  lemma DatabaseNameCollision()
    ensures "a.b@x" != "a_b@y"
    ensures DatabaseName("a.b@x") == DatabaseName("a_b@y")
  {
    LocalPartOfAddress("a.b", "x");
    LocalPartOfAddress("a_b", "y");
    assert Sanitize("a.b") == "a_b";
    SanitizeFixedPoints("a_b");
  }

  /** For any user part without `@`, with or without a domain, the database
      name is the prefix followed by the sanitised user part. */
  lemma DatabaseNameOfAddress(user: string, domain: string)
    requires '@' !in user
    ensures DatabaseName(user) == DatabasePrefix + Sanitize(user)
    ensures DatabaseName(user + "@" + domain) == DatabasePrefix + Sanitize(user)
  {
    LocalPartOfAddress(user, domain);
    LocalPartUnique(user, user);
  }

  /** The database name keeps the whole local part when it is made of word
      characters only. */
  lemma DatabaseNameOfPlainUser(user: string, domain: string)
    requires '@' !in user && AllWordChars(user)
    ensures DatabaseName(user + "@" + domain) == DatabasePrefix + user
  {
    LocalPartOfAddress(user, domain);
    SanitizeFixedPoints(user);
  }

  // ---- base_location.replace('dbfs:', '') ----

  /** Whether `Scheme` occurs somewhere in `s`. */
  predicate ContainsScheme(s: string)
    decreases |s|
  {
    |s| >= |Scheme| && (s[..|Scheme|] == Scheme || ContainsScheme(s[1..]))
  }

  /** `s.replace('dbfs:', '')`: one left-to-right pass that removes each
      non-overlapping occurrence; text the removal brings together is not
      scanned again. */
  function StripScheme(s: string): (r: string)
    ensures |r| <= |s|
    ensures (|s| - |r|) % |Scheme| == 0
    decreases |s|
  {
    if |s| < |Scheme| then s
    else if s[..|Scheme|] == Scheme then StripScheme(s[|Scheme|..])
    else [s[0]] + StripScheme(s[1..])
  }

  /** The pass leaves a text alone exactly when the scheme does not occur in it. */
  lemma {:induction false} StripSchemeUnchanged(s: string)
    ensures StripScheme(s) == s <==> !ContainsScheme(s)
    decreases |s|
  {
    if |s| >= |Scheme| {
      if s[..|Scheme|] != Scheme {
        StripSchemeUnchanged(s[1..]);
        assert s == [s[0]] + s[1..];
      }
    }
  }

  /** A leading scheme is dropped. */
  lemma StripLeadingScheme(t: string)
    ensures StripScheme(Scheme + t) == StripScheme(t)
  {
    assert (Scheme + t)[..|Scheme|] == Scheme;
    assert (Scheme + t)[|Scheme|..] == t;
  }

  /** Only one pass: removing `dbfs:` from the middle of `dbdbfs:fs:`
      leaves a new `dbfs:` behind. */
  lemma StripSchemeSinglePass()
    ensures StripScheme("dbdbfs:fs:") == "dbfs:"
    ensures ContainsScheme(StripScheme("dbdbfs:fs:"))
  {
    assert "dbdbfs:fs:"[1..] == "bdbfs:fs:";
    assert "bdbfs:fs:"[1..] == "dbfs:fs:";
    assert "dbfs:fs:"[5..] == "fs:";
    assert StripScheme("fs:") == "fs:";
    assert StripScheme("dbfs:fs:") == "fs:";
    assert StripScheme("bdbfs:fs:") == "bfs:";
    assert "dbfs:"[..5] == Scheme;
  }

  // ---- tmp_data_path ----

  /** `tmp_data_path`: the base location without its scheme, then `data/`,
      the full address and a closing `/`. */
  function TmpDataPath(base: string, email: string): (p: string)
    ensures |p| > 0 && p[|p| - 1] == '/'
  {
    StripScheme(base) + "data/" + email + "/"
  }

  /** With the notebook's base location the path is `/tmp/demand_forecast/data/<email>/`. */
  lemma TmpDataPathOfBase(email: string)
    ensures TmpDataPath(BaseLocation, email) == "/tmp/demand_forecast/" + "data/" + email + "/"
  {
    var tail := "/tmp/demand_forecast/";
    assert BaseLocation == Scheme + tail;
    StripSchemeThenPlain(tail);
    assert StripScheme(BaseLocation) == tail;
  }

  /** The scheme followed by text without `:` loses just the scheme. */
  lemma StripSchemeThenPlain(t: string)
    requires ':' !in t
    ensures StripScheme(Scheme + t) == t
  {
    StripLeadingScheme(t);
    NoColonNoScheme(t);
    StripSchemeUnchanged(t);
  }

  /** A text without `:` cannot hold the scheme. */
  lemma {:induction false} NoColonNoScheme(s: string)
    requires ':' !in s
    ensures !ContainsScheme(s)
    decreases |s|
  {
    if |s| >= |Scheme| {
      assert s[..|Scheme|][4] == s[4];
      assert s[4] in s;
      assert forall c :: c in s[1..] ==> c in s;
      NoColonNoScheme(s[1..]);
    }
  }

  /** Unlike the database name, the path keeps the whole address, so
      different addresses get different paths. */
  lemma TmpDataPathInjective(base: string, e1: string, e2: string)
    requires TmpDataPath(base, e1) == TmpDataPath(base, e2)
    ensures e1 == e2
  {
    var head := StripScheme(base) + "data/";
    var p1 := TmpDataPath(base, e1);
    var p2 := TmpDataPath(base, e2);
    assert p1 == head + e1 + "/";
    assert p2 == head + e2 + "/";
    assert e1 == p1[|head|..|p1| - 1];
    assert e2 == p2[|head|..|p2| - 1];
  }
}
