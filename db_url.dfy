/**
 * The database URL rewrite that makes SQLAlchemy use the psycopg (version 3)
 * driver for Postgres.
 */
module DatabaseUrl {
  import opened Text

  const Heroku := "postgres://"
  const Plain := "postgresql://"
  const Psycopg2 := "postgresql+psycopg2://"
  const Psycopg := "postgresql+psycopg://"

  /** The Heroku-style scheme, renamed first. */
  function Renamed(url: string): (u: string)
    ensures StartsWith(url, Heroku) ==> u == Plain + url[|Heroku|..]
    ensures !StartsWith(url, Heroku) ==> u == url
  {
    if StartsWith(url, Heroku) then Plain + url[|Heroku|..] else url
  }

  /** `_normalize_postgres_url` */
  function NormalizePostgresUrl(url: string): string {
    var u := Renamed(url);
    if StartsWith(u, Psycopg2) then Psycopg + u[|Psycopg2|..]
    else if StartsWith(u, Plain) && '+' !in u[|Plain|..] then Psycopg + u[|Plain|..]
    else u
  }

  lemma PrefixOf(p: string, rest: string)
    ensures StartsWith(p + rest, p) && (p + rest)[|p|..] == rest
  {
    assert (p + rest)[..|p|] == p;
  }

  lemma CharOfPrefix(s: string, p: string, k: nat)
    requires StartsWith(s, p) && k < |p|
    ensures s[k] == p[k]
  {
    assert s[..|p|][k] == s[k];
  }

  /** The schemes exclude each other: they differ at position 8, 10 or 18. */
  lemma SchemesDisjoint(s: string)
    ensures !(StartsWith(s, Heroku) && StartsWith(s, Plain))
    ensures !(StartsWith(s, Heroku) && StartsWith(s, Psycopg2))
    ensures !(StartsWith(s, Heroku) && StartsWith(s, Psycopg))
    ensures !(StartsWith(s, Plain) && StartsWith(s, Psycopg2))
    ensures !(StartsWith(s, Plain) && StartsWith(s, Psycopg))
    ensures !(StartsWith(s, Psycopg2) && StartsWith(s, Psycopg))
  {
    if StartsWith(s, Heroku) {
      CharOfPrefix(s, Heroku, 8);
      assert s[8] == ':';
    }
    if StartsWith(s, Plain) {
      CharOfPrefix(s, Plain, 8);
      CharOfPrefix(s, Plain, 10);
      assert s[8] == 'q' && s[10] == ':';
    }
    if StartsWith(s, Psycopg2) {
      CharOfPrefix(s, Psycopg2, 8);
      CharOfPrefix(s, Psycopg2, 10);
      CharOfPrefix(s, Psycopg2, 18);
      assert s[8] == 'q' && s[10] == '+' && s[18] == '2';
    }
    if StartsWith(s, Psycopg) {
      CharOfPrefix(s, Psycopg, 8);
      CharOfPrefix(s, Psycopg, 10);
      CharOfPrefix(s, Psycopg, 18);
      assert s[8] == 'q' && s[10] == '+' && s[18] == ':';
    }
  }

  /**
   * The rewrite rules: an explicit psycopg2 driver and a bare "postgresql://"
   * with no driver both become psycopg; "postgres://" is first renamed to
   * "postgresql://"; the part after the scheme is kept; anything else is
   * returned as it is.
   */
  lemma RewriteRules(url: string)
    ensures StartsWith(url, Psycopg2) ==> NormalizePostgresUrl(url) == Psycopg + url[|Psycopg2|..]
    ensures StartsWith(url, Plain) && '+' !in url[|Plain|..] ==> NormalizePostgresUrl(url) == Psycopg + url[|Plain|..]
    ensures StartsWith(url, Plain) && '+' in url[|Plain|..] ==> NormalizePostgresUrl(url) == url
    ensures StartsWith(url, Heroku) && '+' !in url[|Heroku|..] ==> NormalizePostgresUrl(url) == Psycopg + url[|Heroku|..]
    ensures StartsWith(url, Heroku) && '+' in url[|Heroku|..] ==> NormalizePostgresUrl(url) == Plain + url[|Heroku|..]
    ensures !StartsWith(url, Heroku) && !StartsWith(url, Plain) && !StartsWith(url, Psycopg2) ==>
      NormalizePostgresUrl(url) == url
  {
    SchemesDisjoint(url);
    if StartsWith(url, Heroku) {
      PrefixOf(Plain, url[|Heroku|..]);
      SchemesDisjoint(Plain + url[|Heroku|..]);
    }
  }

  /** A rewritten URL is left alone by a second rewrite. */
  lemma NormalizeIdempotent(url: string)
    ensures NormalizePostgresUrl(NormalizePostgresUrl(url)) == NormalizePostgresUrl(url)
  {
    var r := NormalizePostgresUrl(url);
    RewriteRules(url);
    RewriteRules(r);
    SchemesDisjoint(url);
    SchemesDisjoint(r);
    if StartsWith(url, Heroku) || StartsWith(url, Psycopg2) || (StartsWith(url, Plain) && '+' !in url[|Plain|..]) {
      if StartsWith(url, Heroku) && '+' in url[|Heroku|..] {
        PrefixOf(Plain, url[|Heroku|..]);
      } else {
        var rest := if StartsWith(url, Psycopg2) then url[|Psycopg2|..]
          else if StartsWith(url, Plain) then url[|Plain|..] else url[|Heroku|..];
        assert r == Psycopg + rest;
        PrefixOf(Psycopg, rest);
      }
    }
  }
}
