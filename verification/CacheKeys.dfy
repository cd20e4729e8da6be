/**
 What every cache backend shares: the key a (version, key) pair is stored under
 and the instant an entry stops being readable.
 */
module CacheKeys {
  import opened Prelude
  import opened Text

  /** Seconds since the epoch. */
  type Instant = t: real | t >= 0.0 witness 0.0

  /** The constructor's arguments after their defaults are filled in. */
  datatype Config = Config(prefix: string, version: int, defaultTtl: int)

  function MakeConfig(prefix: Option<string>, version: Option<int>, ttl: Option<int>): Config {
    Config(
      prefix.GetOr(""),
      if version.None? || version.value == 0 then 1 else version.value,
      if ttl.None? || ttl.value == 0 then 300 else ttl.value)
  }

  /** The version text a key is built with: a missing or empty one is the backend's. */
  function VersionText(cfg: Config, version: Option<string>): string {
    if version.None? || version.value == "" then IntToString(cfg.version) else version.value
  }

  function MakeKey(cfg: Config, key: string, version: Option<string>): string {
    cfg.prefix + ":" + VersionText(cfg, version) + ":" + key
  }

  /** The deadline of an entry written at `now`. */
  function Deadline(cfg: Config, ttl: Option<real>, now: Instant): real {
    now + (if ttl.None? then cfg.defaultTtl as real
           else if ttl.value == 0.0 then -1.0
           else ttl.value)
  }

  // ----- keys of different pairs never meet -----

  ghost predicate ColonFree(version: Option<string>) {
    version.Some? ==> ':' !in version.value
  }

  lemma VersionTextColonFree(cfg: Config, version: Option<string>)
    requires ColonFree(version)
    ensures ':' !in VersionText(cfg, version)
  {
    assert forall c :: c in IntToString(cfg.version) ==> IsDigit(c) || c == '-';
  }

  /** Two pairs share a stored key exactly when they name the same version and key. */
  lemma MakeKeyInjective(cfg: Config, k1: string, v1: Option<string>, k2: string, v2: Option<string>)
    requires ColonFree(v1) && ColonFree(v2)
    ensures MakeKey(cfg, k1, v1) == MakeKey(cfg, k2, v2) <==>
            VersionText(cfg, v1) == VersionText(cfg, v2) && k1 == k2
  {
    if MakeKey(cfg, k1, v1) == MakeKey(cfg, k2, v2) {
      var a, b := VersionText(cfg, v1), VersionText(cfg, v2);
      VersionTextColonFree(cfg, v1);
      VersionTextColonFree(cfg, v2);
      var n := |cfg.prefix + ":"|;
      assert MakeKey(cfg, k1, v1)[n..] == a + [':'] + k1;
      assert MakeKey(cfg, k2, v2)[n..] == b + [':'] + k2;
      SplitPiece(a, k1, ':');
      SplitPiece(b, k2, ':');
      assert a == Split(a + [':'] + k1, ':')[0] == b;
      assert (a + [':'] + k1)[|a| + 1..] == k1;
      assert (b + [':'] + k2)[|b| + 1..] == k2;
    }
  }

  /** A missing version and the backend's own version are one and the same. */
  lemma MissingVersionIsTheDefault(cfg: Config, key: string)
    ensures MakeKey(cfg, key, None) == MakeKey(cfg, key, Some(IntToString(cfg.version)))
    ensures MakeKey(cfg, key, None) == MakeKey(cfg, key, Some(""))
  {
  }

  /** A colon in a version breaks the separation. */
  lemma ColonVersionsCollide(cfg: Config)
    ensures MakeKey(cfg, "b", Some("1:a")) == MakeKey(cfg, "a:b", Some("1"))
  {
    assert cfg.prefix + ":" + "1:a" + ":" + "b" == cfg.prefix + ":" + "1" + ":" + "a:b";
  }

  /** A ttl of zero is past at once: the deadline lies before the write. */
  lemma ZeroTtlIsAlreadyPast(cfg: Config, now: Instant)
    ensures Deadline(cfg, Some(0.0), now) < now
  {
  }
}
