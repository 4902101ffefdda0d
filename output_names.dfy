/** The default output file of a recording: `<cwd>/crawls/<domain>.json`,
    then `<domain>2.json`, `<domain>3.json`, ... for the first name that does
    not exist yet, where the domain is the URL's host with a leading `www.`
    removed. */
module OutputNames {

  predicate HasWwwPrefix(host: string)
  {
    |host| >= 4 && host[..4] == "www."
  }

  /** `re.sub(r"^www\.", "", host)`: the anchor matches only at the start, so
      at most one leading `www.` goes. */
  function StripWww(host: string): (r: string)
    ensures host == r || host == "www." + r
    ensures r == host <==> !HasWwwPrefix(host)
    ensures HasWwwPrefix(host) ==> |r| == |host| - 4
  {
    if HasWwwPrefix(host) then host[4..] else host
  }

  /** Only the leading `www.` is removed: "www.www.a" keeps its second one. */
  lemma StripWwwOnlyOnce()
    ensures StripWww("www.www.a") == "www.a"
  {
  }

  function Digit(d: nat): (c: char)
    requires d < 10
  {
    ('0' as int + d) as char
  }

  /** The number a string of decimal digits denotes, most significant first. */
  function DigitsValue(s: string): nat
    requires forall k :: 0 <= k < |s| ==> '0' <= s[k] <= '9'
  {
    if s == [] then 0
    else DigitsValue(s[..|s| - 1]) * 10 + (s[|s| - 1] as int - '0' as int)
  }

  /** `str(n)` of a non-negative integer: its decimal digits, no leading zero. */
  function Decimal(n: nat): (s: string)
    ensures 1 <= |s|
    ensures forall k :: 0 <= k < |s| ==> '0' <= s[k] <= '9'
    ensures n < 10 <==> |s| == 1
    ensures n > 0 ==> s[0] != '0'
    decreases n
  {
    if n < 10 then [Digit(n)] else Decimal(n / 10) + [Digit(n % 10)]
  }

  /** The digits of `str(n)` denote `n`, so `domain12.json` is attempt 12. */
  lemma {:induction false} DecimalValue(n: nat)
    ensures DigitsValue(Decimal(n)) == n
    decreases n
  {
    var s := Decimal(n);
    if n >= 10 {
      DecimalValue(n / 10);
      assert s[..|s| - 1] == Decimal(n / 10);
    }
  }

  /** Different numbers print differently. */
  lemma {:induction false} DecimalInjective(n: nat, m: nat)
    requires Decimal(n) == Decimal(m)
    ensures n == m
    decreases n
  {
    if n >= 10 {
      var s, t := Decimal(n), Decimal(m);
      assert m >= 10;
      assert s[..|s| - 1] == Decimal(n / 10);
      assert t[..|t| - 1] == Decimal(m / 10);
      assert s[|s| - 1] == Digit(n % 10) && t[|t| - 1] == Digit(m % 10);
      DecimalInjective(n / 10, m / 10);
    }
  }

  /** The part of the name between the domain and `.json`: nothing for the
      first attempt, the attempt number after that. */
  function Suffix(n: nat): string
    requires n >= 1
  {
    if n == 1 then "" else Decimal(n)
  }

  function FileName(domain: string, n: nat): string
    requires n >= 1
  {
    domain + Suffix(n) + ".json"
  }

  /** `Path.cwd() / "crawls"`: the separator is added unless the working
      directory already ends in one, as only the root directory does. The
      result never ends in a separator. */
  function CrawlDir(cwd: string): (d: string)
    ensures |d| == |cwd| + (if |cwd| > 0 && cwd[|cwd| - 1] == '/' then 6 else 7)
    ensures d[..|cwd|] == cwd && d[|d| - 7..] == "/crawls"
    ensures |d| > 0 && d[|d| - 1] == 's'
  {
    if |cwd| > 0 && cwd[|cwd| - 1] == '/' then cwd + "crawls" else cwd + "/crawls"
  }

  /** The path tried at attempt `n` in the `crawls` directory `base`, which
      never ends in a separator. */
  function Candidate(base: string, domain: string, n: nat): string
    requires n >= 1
  {
    base + "/" + FileName(domain, n)
  }

  /** Run from the root directory, the first attempt is `/crawls/<domain>.json`,
      with no doubled separator. */
  lemma CandidateAtRoot()
    ensures Candidate(CrawlDir("/"), "a", 1) == "/crawls/a.json"
  {
    assert CrawlDir("/") == "/crawls";
  }

  /** Different attempts try different paths, so the search never revisits one. */
  lemma {:induction false} CandidateInjective(base: string, domain: string, n: nat, m: nat)
    requires n >= 1 && m >= 1
    requires Candidate(base, domain, n) == Candidate(base, domain, m)
    ensures n == m
  {
    var pre := base + "/" + domain;
    var p, q := Candidate(base, domain, n), Candidate(base, domain, m);
    assert p == pre + Suffix(n) + ".json";
    assert q == pre + Suffix(m) + ".json";
    assert |Suffix(n)| == |Suffix(m)|;
    assert p[|pre|..|p| - 5] == Suffix(n);
    assert q[|pre|..|q| - 5] == Suffix(m);
    if n != 1 && m != 1 {
      DecimalInjective(n, m);
    }
  }

  /** The paths tried before attempt `n`. */
  ghost function Tried(base: string, domain: string, n: nat): set<string>
  {
    set m | 1 <= m < n :: Candidate(base, domain, m)
  }

  lemma TriedGrows(base: string, domain: string, n: nat)
    requires n >= 1
    ensures Tried(base, domain, n + 1) == Tried(base, domain, n) + {Candidate(base, domain, n)}
    ensures Candidate(base, domain, n) !in Tried(base, domain, n)
  {
    if Candidate(base, domain, n) in Tried(base, domain, n) {
      var m :| 1 <= m < n && Candidate(base, domain, m) == Candidate(base, domain, n);
      CandidateInjective(base, domain, m, n);
    }
  }

  /** The first attempt from `n` on whose path does not exist. The search ends
      because every attempt that fails uses up one more existing path. */
  function FirstFree(base: string, domain: string, existing: set<string>, n: nat): (r: nat)
    requires n >= 1
    requires forall m :: 1 <= m < n ==> Candidate(base, domain, m) in existing
    ensures n <= r
    ensures Candidate(base, domain, r) !in existing
    ensures forall m :: 1 <= m < r ==> Candidate(base, domain, m) in existing
    decreases existing - Tried(base, domain, n)
  {
    if Candidate(base, domain, n) !in existing then n
    else
      TriedGrows(base, domain, n);
      FirstFree(base, domain, existing, n + 1)
  }

  /** The default output path for a URL whose host is `netloc`. */
  function DefaultPath(cwd: string, netloc: string, existing: set<string>): string
  {
    var base, domain := CrawlDir(cwd), StripWww(netloc);
    Candidate(base, domain, FirstFree(base, domain, existing, 1))
  }

  /** The default path is never an existing one, and no attempt before it was free. */
  lemma DefaultPathIsLeastFree(cwd: string, netloc: string, existing: set<string>, k: nat)
    requires k >= 1 && Candidate(CrawlDir(cwd), StripWww(netloc), k) !in existing
    ensures var r := FirstFree(CrawlDir(cwd), StripWww(netloc), existing, 1);
      && DefaultPath(cwd, netloc, existing) == Candidate(CrawlDir(cwd), StripWww(netloc), r)
      && DefaultPath(cwd, netloc, existing) !in existing
      && 1 <= r <= k
  {
  }
}
