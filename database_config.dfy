/** The connection settings chosen at start-up: the database URL from the
    environment, with the `postgres://` scheme some hosts hand out rewritten
    to the `postgresql://` scheme SQLAlchemy expects, and the extra connect
    arguments that only SQLite needs. */
module DatabaseConfig {
  import opened Wrappers
  import opened Text

  const DefaultUrl := "sqlite:///./hrms.db"
  const LegacyScheme := "postgres://"
  const Scheme := "postgresql://"

  /** The URL after the start-up rewrite of an `DATABASE_URL` value. */
  function Rewrite(url: string): string {
    if StartsWith(url, LegacyScheme) then ReplaceFirst(url, LegacyScheme, Scheme) else url
  }

  /** `DATABASE_URL` as the module computes it; `env` is the environment
      variable, None when unset. */
  function DatabaseUrl(env: Option<string>): (url: string)
    ensures env.None? ==> url == DefaultUrl
    ensures env.Some? && StartsWith(env.value, LegacyScheme) ==> url == Scheme + env.value[|LegacyScheme|..]
    ensures env.Some? && !StartsWith(env.value, LegacyScheme) ==> url == env.value
  {
    assert env.Some? && StartsWith(env.value, LegacyScheme) ==> Rewrite(env.value) == Scheme + env.value[|LegacyScheme|..] by {
      if env.Some? && StartsWith(env.value, LegacyScheme) {
        ReplaceFirstAtStart(env.value, LegacyScheme, Scheme);
      }
    }
    assert !StartsWith(DefaultUrl, LegacyScheme) by {
      assert DefaultUrl[..|LegacyScheme|][0] != LegacyScheme[0];
    }
    Rewrite(env.GetOr(DefaultUrl))
  }

  /** `connect_args`: either nothing, or SQLite's `check_same_thread: False`. */
  datatype ConnectArgs = NoArgs | CheckSameThread(value: bool)

  function ConnectArgsFor(url: string): (args: ConnectArgs)
    ensures args == NoArgs <==> Contains(url, "postgresql")
    ensures args != NoArgs ==> args == CheckSameThread(false)
  {
    if Contains(url, "postgresql") then NoArgs else CheckSameThread(false)
  }

  /** A rewritten URL is no longer in the legacy scheme, so a second start-up
      leaves it alone. */
  lemma RewriteIdempotent(url: string)
    ensures Rewrite(Rewrite(url)) == Rewrite(url)
  {
    if StartsWith(url, LegacyScheme) {
      ReplaceFirstAtStart(url, LegacyScheme, Scheme);
      var r := Scheme + url[|LegacyScheme|..];
      assert r[..|LegacyScheme|][8] == 'q' != LegacyScheme[8];
    }
  }

  /** A URL rewritten from `postgres://` gets no SQLite arguments. */
  lemma RewrittenUrlIsPostgres(url: string)
    requires StartsWith(url, LegacyScheme)
    ensures ConnectArgsFor(Rewrite(url)) == NoArgs
  {
    ReplaceFirstAtStart(url, LegacyScheme, Scheme);
    var r := Scheme + url[|LegacyScheme|..];
    assert StartsWith(r, "postgresql") by {
      assert r[..10] == Scheme[..10];
    }
  }

  /** With `DATABASE_URL` unset the SQLite URL gets `check_same_thread: False`. */
  lemma DefaultIsSqlite()
    ensures ConnectArgsFor(DatabaseUrl(None)) == CheckSameThread(false)
  {
    NoPostgresWithoutP(DefaultUrl);
  }

  /** A string without the letter `p` does not contain "postgresql". */
  lemma {:induction false} NoPostgresWithoutP(s: string)
    requires 'p' !in s
    ensures !Contains(s, "postgresql")
    decreases |s|
  {
    if s != [] {
      assert !StartsWith(s, "postgresql") by {
        if |s| >= 10 {
          assert s[..10][0] == s[0];
        }
      }
      assert 'p' !in s[1..] by {
        assert forall c :: c in s[1..] ==> c in s;
      }
      NoPostgresWithoutP(s[1..]);
    }
  }
}
