/** The pgbackrest commands that the worker builds, and the sidecar's own check of what it is asked to run. */
module BackupCommands {
  import opened Text
  import opened Numbers

  datatype Result<T> = Ok(value: T) | Error

  // ---- The worker ----

  /** What `int(config.get("pgbackrest_repo") or 0)` reads: a number, or something it cannot read. */
  datatype RepoValue = Number(n: int) | Unreadable

  /** The fields of the job that the commands depend on; an absent or empty text is "". */
  datatype Config = Config(
    storageType: string,
    bucket: string,
    endpointUrl: string,
    region: string,
    repo: RepoValue,
    keepDaily: int)

  /** `_pgbackrest_repo_number`. */
  function RepoNumber(c: Config): (r: Result<nat>)
    ensures r.Ok? <==> c.repo.Number? && 0 <= c.repo.n <= 256
  {
    match c.repo
    case Unreadable => Error
    case Number(n) => if 0 <= n <= 256 then Ok(n) else Error
  }

  /** `s.rstrip("/")`. */
  function DropSlashes(s: string): string {
    if s != "" && s[|s| - 1] == '/' then DropSlashes(s[..|s| - 1]) else s
  }

  /** The host of `_strip_endpoint_scheme`. */
  function EndpointHost(url: string): string {
    var host := Strip(url);
    DropSlashes(if "https://" <= host then host[8..] else if "http://" <= host then host[7..] else host)
  }

  predicate IsRemote(c: Config) { c.storageType == "s3" || c.storageType == "b2" }

  function Region(c: Config): string { if c.region == "" then "us-east-1" else c.region }

  /** `_pgbackrest_s3_repo_args`. */
  function RemoteArgs(c: Config, target: string): seq<string> {
    var host := EndpointHost(c.endpointUrl);
    ["--repo1-type=s3", "--repo1-s3-bucket=" + c.bucket]
    + (if host == "" then [] else ["--repo1-s3-endpoint=" + host])
    + ["--repo1-s3-region=" + Region(c), "--repo1-path=/" + target]
  }

  function RepoArgs(c: Config, target: string, repo: nat): seq<string> {
    if repo != 0 then ["--repo=" + Decimal(repo)] else if IsRemote(c) then RemoteArgs(c, target) else []
  }

  /** The `pgbackrest` branch of `execute_job`. */
  function BackupCommand(c: Config, target: string): Result<seq<string>> {
    match RepoNumber(c)
    case Error => Error
    case Ok(repo) =>
      var keep :=
        if c.keepDaily > 0 then ["--repo" + Decimal(if repo == 0 then 1 else repo)
                                   + "-retention-full=" + Decimal(c.keepDaily)]
        else [];
      Ok(["pgbackrest", "backup", "--stanza=" + target, "--type=full"] + RepoArgs(c, target, repo) + keep)
  }

  /** The `sync_snapshots` branch of `execute_job` for pgbackrest. */
  function InfoCommand(c: Config, target: string): Result<seq<string>> {
    match RepoNumber(c)
    case Error => Error
    case Ok(repo) => Ok(["pgbackrest", "info", "--stanza=" + target, "--output=json"] + RepoArgs(c, target, repo))
  }

  /** The same branches step by step, with the command extended in place. */
  method BuildCommand(c: Config, target: string, backup: bool) returns (r: Result<seq<string>>)
    ensures r == (if backup then BackupCommand(c, target) else InfoCommand(c, target))
  {
    var cmd :=
      if backup then ["pgbackrest", "backup", "--stanza=" + target, "--type=full"]
      else ["pgbackrest", "info", "--stanza=" + target, "--output=json"];
    ghost var head := cmd;
    var repo := RepoNumber(c);
    if repo.Error? {
      return Error;
    }
    Regroup(head, [], []);
    if repo.value != 0 {
      cmd := cmd + ["--repo=" + Decimal(repo.value)];
    } else if IsRemote(c) {
      cmd := cmd + RemoteArgs(c, target);
    }
    assert cmd == head + RepoArgs(c, target, repo.value);
    Regroup(cmd, [], []);
    if backup && c.keepDaily > 0 {
      cmd := cmd + ["--repo" + Decimal(if repo.value == 0 then 1 else repo.value)
                    + "-retention-full=" + Decimal(c.keepDaily)];
    }
    return Ok(cmd);
  }

  // ---- The sidecar ----

  predicate IsStanzaChar(c: char) { IsLetter(c) || IsDigit(c) || c == '_' }

  predicate IsStanza(s: string) { s != "" && All(s, IsStanzaChar) }

  predicate IsValueChar(c: char) { IsStanzaChar(c) || c == '.' || c == ':' || c == '/' || c == '-' }

  predicate IsValue(s: string) { s != "" && All(s, IsValueChar) }

  predicate IsDigits(s: string, most: nat) { 1 <= |s| <= most && All(s, IsDigit) }

  /** `_REPO_OPTION_RE.match`. */
  predicate IsRepoOption(arg: string) {
    "--repo=" <= arg && IsDigits(arg[7..], 3)
  }

  /** `_REPO_RETENTION_RE.match`: the number of digits before the option name is `n`. */
  predicate IsRetentionAt(arg: string, n: nat) {
    && 1 <= n <= 3 && 6 + n + 16 <= |arg|
    && "--repo" <= arg && All(arg[6..6 + n], IsDigit)
    && arg[6 + n..6 + n + 16] == "-retention-full="
    && IsDigits(arg[6 + n + 16..], 5)
  }

  predicate IsRetention(arg: string) {
    IsRetentionAt(arg, 1) || IsRetentionAt(arg, 2) || IsRetentionAt(arg, 3)
  }

  /** `arg.split("=", 1)[1]`. */
  function AfterEquals(arg: string): string {
    var i := IndexOf(arg, '=');
    if i < |arg| then arg[i + 1..] else ""
  }

  predicate HasAllowedPrefix(arg: string) {
    || "--repo1-retention-full=" <= arg
    || "--repo1-s3-bucket=" <= arg
    || "--repo1-s3-endpoint=" <= arg
    || "--repo1-s3-region=" <= arg
    || "--repo1-path=" <= arg
  }

  predicate IsOperation(op: string) { op == "backup" || op == "info" }

  /** An argument of the allowed commands. */
  predicate IsAllowed(op: string, arg: string) {
    || ("--stanza=" <= arg && IsStanza(arg[9..]))
    || arg == "--type=full" || arg == "--type=diff" || arg == "--type=incr"
    || arg == "--repo1-type=s3"
    || (arg == "--output=json" && op == "info")
    || IsRepoOption(arg) || IsRetention(arg)
    || (HasAllowedPrefix(arg) && IsValue(AfterEquals(arg)))
  }

  predicate AllAllowed(op: string, args: seq<string>) {
    args != [] ==> IsAllowed(op, args[0]) && AllAllowed(op, args[1..])
  }

  predicate HasStanza(args: seq<string>) {
    args != [] && ("--stanza=" <= args[0] || HasStanza(args[1..]))
  }

  /** The commands that the sidecar runs. */
  predicate IsAccepted(cmd: seq<string>) {
    |cmd| >= 2 && cmd[0] == "pgbackrest" && IsOperation(cmd[1]) && AllAllowed(cmd[1], cmd[2..]) && HasStanza(cmd[2..])
  }

  lemma IndexOfIn(arg: string, prefix: string)
    requires prefix <= arg && prefix != "" && prefix[|prefix| - 1] == '='
    requires forall i :: 0 <= i < |prefix| - 1 ==> prefix[i] != '='
    ensures AfterEquals(arg) == arg[|prefix|..]
  {
    var front := prefix[..|prefix| - 1];
    IndexOfFirst(front, '=', arg[|prefix|..]);
    assert arg == front + ['='] + arg[|prefix|..];
  }

  /** The branches of the loop body of `_validate_request_cmd`, in their order. */
  predicate Passes(op: string, arg: string) {
    if "--stanza=" <= arg then IsStanza(AfterEquals(arg))
    else if "--type=" <= arg then AfterEquals(arg) == "full" || AfterEquals(arg) == "diff" || AfterEquals(arg) == "incr"
    else if arg == "--repo1-type=s3" then true
    else if arg == "--output=json" && op == "info" then true
    else if IsRepoOption(arg) || IsRetention(arg) then true
    else HasAllowedPrefix(arg) && IsValue(AfterEquals(arg))
  }

  lemma ThirdChar(arg: string)
    ensures IsRepoOption(arg) || IsRetention(arg) || HasAllowedPrefix(arg) ==> |arg| > 6 && arg[2] == 'r'
    ensures "--stanza=" <= arg ==> |arg| > 6 && arg[2] == 's'
    ensures "--type=" <= arg ==> |arg| > 6 && arg[2] == 't'
  {
    hide IsDigits, All;
  }

  /** The order of the branches decides nothing. */
  lemma PassesIsAllowed(op: string, arg: string)
    ensures Passes(op, arg) <==> IsAllowed(op, arg)
  {
    hide IsStanza, IsValue, AfterEquals, IsRepoOption, IsRetention, HasAllowedPrefix;
    ThirdChar(arg);
    if "--stanza=" <= arg {
      IndexOfIn(arg, "--stanza=");
    } else if "--type=" <= arg {
      IndexOfIn(arg, "--type=");
      assert arg == "--type=" + arg[7..];
      TypeArg(op, arg[7..]);
    }
  }

  lemma TypeArg(op: string, value: string)
    ensures var arg := "--type=" + value;
            (arg == "--type=full" || arg == "--type=diff" || arg == "--type=incr") <==>
            (value == "full" || value == "diff" || value == "incr")
  {
    assert ("--type=" + value)[7..] == value;
    assert "--type=full"[7..] == "full" && "--type=diff"[7..] == "diff" && "--type=incr"[7..] == "incr";
    assert "--type=" + "full" == "--type=full" && "--type=" + "diff" == "--type=diff";
    assert "--type=" + "incr" == "--type=incr";
  }

  /** `_validate_request_cmd` of a list of texts; false is a `ValueError`. */
  method ValidateRequest(cmd: seq<string>) returns (ok: bool)
    ensures ok <==> IsAccepted(cmd)
  {
    hide Passes, IsAllowed, IsOperation;
    if cmd == [] || cmd[0] != "pgbackrest" {
      return false;
    }
    if |cmd| < 2 || !IsOperation(cmd[1]) {
      return false;
    }
    var stanzaSeen := false;
    assert cmd[2..][0..] == cmd[2..];
    var k := 2;
    while k < |cmd|
      invariant 2 <= k <= |cmd|
      invariant AllAllowed(cmd[1], cmd[2..]) <==> AllAllowed(cmd[1], cmd[k..])
      invariant HasStanza(cmd[2..]) <==> stanzaSeen || HasStanza(cmd[k..])
    {
      var arg := cmd[k];
      Rest(cmd, k);
      PassesIsAllowed(cmd[1], arg);
      if !Passes(cmd[1], arg) {
        return false;
      }
      if "--stanza=" <= arg {
        stanzaSeen := true;
      }
      k := k + 1;
    }
    assert cmd[k..] == [];
    ok := stanzaSeen;
  }

  // ---- Everything that is built is accepted ----

  lemma {:induction false} AllowedConcat(op: string, a: seq<string>, b: seq<string>)
    ensures AllAllowed(op, a + b) <==> AllAllowed(op, a) && AllAllowed(op, b)
  {
    hide IsAllowed;
    if a == [] {
      assert a + b == b;
    } else {
      assert (a + b)[1..] == a[1..] + b;
      AllowedConcat(op, a[1..], b);
    }
  }

  lemma AllowedOne(op: string, arg: string)
    ensures AllAllowed(op, [arg]) <==> IsAllowed(op, arg)
  {
    hide IsAllowed;
    assert [arg][1..] == [];
  }

  /** An argument that starts with one of the listed prefixes, but not as a retention option, needs a well-formed
      value. */
  lemma ValueArg(op: string, prefix: string, value: string)
    requires prefix == "--repo1-s3-bucket=" || prefix == "--repo1-s3-endpoint="
             || prefix == "--repo1-s3-region=" || prefix == "--repo1-path="
    ensures IsAllowed(op, prefix + value) <==> IsValue(value)
  {
    hide IsStanza, IsValue, IndexOf, AfterEquals, IsRetention, IsRepoOption;
    var arg := prefix + value;
    PrefixChars(prefix);
    assert arg[2] == 'r' && arg[6] == '1' && arg[7] == '-' && arg[8] == prefix[8] && prefix <= arg;
    IndexOfIn(arg, prefix);
    assert arg[|prefix|..] == value;
    NoOption(arg);
  }

  lemma PrefixChars(prefix: string)
    requires prefix == "--repo1-s3-bucket=" || prefix == "--repo1-s3-endpoint="
             || prefix == "--repo1-s3-region=" || prefix == "--repo1-path="
    ensures |prefix| > 8 && prefix[2] == 'r' && prefix[6] == '1'
    ensures prefix[7] == '-' && prefix[8] != 'r' && prefix[8] != 't'
    ensures prefix[|prefix| - 1] == '=' && forall i :: 0 <= i < |prefix| - 1 ==> prefix[i] != '='
  {
  }

  lemma NoOption(arg: string)
    requires |arg| > 8 && arg[6] == '1' && arg[7] == '-' && arg[8] != 'r'
    ensures !IsRepoOption(arg) && !IsRetention(arg)
  {
    hide All, IsDigits, IsRetentionAt;
    RetentionDash(arg, 1);
    RetentionDigit(arg, 2, 1);
    RetentionDigit(arg, 3, 1);
  }

  /** A retention option has digits before its name, */
  lemma RetentionDigit(arg: string, n: nat, k: nat)
    requires k < n
    ensures IsRetentionAt(arg, n) ==> |arg| > 6 + k && IsDigit(arg[6 + k])
  {
    if IsRetentionAt(arg, n) {
      AllEach(arg[6..6 + n], IsDigit);
      assert arg[6..6 + n][k] == arg[6 + k];
    }
  }

  /** and its name after them. */
  lemma RetentionDash(arg: string, n: nat)
    ensures IsRetentionAt(arg, n) ==> |arg| > 8 + n && arg[6 + n] == '-' && arg[7 + n] == 'r' && arg[8 + n] == 'e'
  {
    hide All, IsDigits;
    if IsRetentionAt(arg, n) {
      var name := arg[6 + n..6 + n + 16];
      assert name[0] == arg[6 + n] && name[1] == arg[7 + n] && name[2] == arg[8 + n];
    }
  }

  lemma StanzaArg(op: string, target: string)
    ensures IsAllowed(op, "--stanza=" + target) <==> IsStanza(target)
  {
    hide IsStanza, IsValue, IndexOf, AfterEquals, IsDigits, All;
    var arg := "--stanza=" + target;
    assert arg[9..] == target && arg[2] == 's';
  }

  lemma FixedArgs()
    ensures IsAllowed("backup", "--type=full") && IsAllowed("info", "--output=json")
    ensures forall op :: IsAllowed(op, "--repo1-type=s3")
  {
  }

  lemma RepoArg(op: string, n: nat)
    requires n <= 256
    ensures IsAllowed(op, "--repo=" + Decimal(n))
  {
    hide IsStanza, IsValue, IndexOf, AfterEquals, All;
    var arg := "--repo=" + Decimal(n);
    assert arg[7..] == Decimal(n);
    PowTen();
    DecimalLength(n, 3);
    DecimalDigits(n);
  }

  lemma PowTen()
    ensures Pow(10, 1) == 10 && Pow(10, 2) == 100 && Pow(10, 3) == 1000 && Pow(10, 5) == 100000
  {
    assert Pow(10, 1) == 10 * Pow(10, 0);
    assert Pow(10, 2) == 10 * Pow(10, 1);
    assert Pow(10, 3) == 10 * Pow(10, 2);
    assert Pow(10, 4) == 10 * Pow(10, 3);
    assert Pow(10, 5) == 10 * Pow(10, 4);
  }

  function RetentionArg(repo: nat, keep: nat): string {
    "--repo" + Decimal(repo) + "-retention-full=" + Decimal(keep)
  }

  /** Where the parts of a concatenation are. */
  lemma FourParts(a: string, b: string, c: string, d: string)
    ensures var s := a + b + c + d;
            && |s| == |a| + |b| + |c| + |d| && a <= s
            && s[|a|..|a| + |b|] == b && s[|a| + |b|..|a| + |b| + |c|] == c && s[|a| + |b| + |c|..] == d
  {
  }

  /** Where the name of the option is in it. */
  lemma RetentionParts(repo: nat, keep: nat)
    requires 0 < repo <= 256
    ensures var arg := RetentionArg(repo, keep);
            var n := |Decimal(repo)|;
            && 1 <= n <= 3 && |arg| == 6 + n + 16 + |Decimal(keep)| && "--repo" <= arg
            && arg[6..6 + n] == Decimal(repo) && arg[6 + n..6 + n + 16] == "-retention-full="
            && arg[6 + n + 16..] == Decimal(keep)
            && arg[6 + n] == '-'
  {
    hide Decimal, Pow;
    PowTen();
    DecimalLength(repo, 3);
    var n := |Decimal(repo)|;
    FourParts("--repo", Decimal(repo), "-retention-full=", Decimal(keep));
    assert RetentionArg(repo, keep)[6 + n..6 + n + 16][0] == RetentionArg(repo, keep)[6 + n];
  }

  /** Its digits end where its name begins. */
  lemma RetentionOnlyAt(arg: string, n: nat, m: nat)
    requires |arg| > 6 + n && arg[6 + n] == '-' && forall k :: 6 <= k < 6 + n ==> IsDigit(arg[k])
    ensures IsRetentionAt(arg, m) ==> m == n
  {
    hide IsRetentionAt;
    if m > n {
      RetentionDigit(arg, m, n);
    } else {
      RetentionDash(arg, m);
    }
  }

  lemma DigitsAreValue(s: string)
    requires s != "" && All(s, IsDigit)
    ensures IsValue(s)
  {
    AllWeaken(s, IsDigit, IsValueChar);
  }

  /** A retention option fits its pattern exactly below 100000, and nowhere else than at the end of its digits. */
  lemma RetentionFits(repo: nat, keep: nat)
    requires 0 < repo <= 256 && keep > 0
    ensures IsRetention(RetentionArg(repo, keep)) <==> keep < 100000
  {
    hide All, Decimal, Pow, IsRetentionAt;
    var arg := RetentionArg(repo, keep);
    var n := |Decimal(repo)|;
    RetentionParts(repo, keep);
    DecimalDigits(repo);
    AllEach(Decimal(repo), IsDigit);
    assert forall k :: 6 <= k < 6 + n ==> arg[k] == arg[6..6 + n][k - 6];
    RetentionHere(arg, n, repo, keep);
    hide RetentionArg;
    RetentionOnlyAt(arg, n, 1);
    RetentionOnlyAt(arg, n, 2);
    RetentionOnlyAt(arg, n, 3);
  }

  lemma RetentionHere(arg: string, n: nat, repo: nat, keep: nat)
    requires 1 <= n <= 3 && keep > 0 && |arg| == 6 + n + 16 + |Decimal(keep)| && "--repo" <= arg
    requires arg[6..6 + n] == Decimal(repo)
    requires arg[6 + n..6 + n + 16] == "-retention-full=" && arg[6 + n + 16..] == Decimal(keep)
    ensures IsRetentionAt(arg, n) <==> keep < 100000
  {
    hide All, Decimal, Pow;
    DecimalDigits(repo);
    DecimalDigits(keep);
    PowTen();
    DecimalLength(keep, 5);
  }

  /** Only repository 1 may keep more than 99999 full backups: its retention is also matched by its prefix. */
  lemma RetentionAllowed(op: string, repo: nat, keep: nat)
    requires 0 < repo <= 256 && keep > 0
    ensures IsAllowed(op, RetentionArg(repo, keep)) <==> repo == 1 || keep < 100000
  {
    hide IsStanza, IsValue, IndexOf, AfterEquals, All, Decimal, IsRetention, IsRepoOption, HasAllowedPrefix,
      RetentionArg;
    var arg := RetentionArg(repo, keep);
    RetentionParts(repo, keep);
    assert arg[2] == 'r';
    RetentionFits(repo, keep);
    RepoOne(repo, keep);
    if repo == 1 {
      IndexOfIn(arg, "--repo1-retention-full=");
      DecimalDigits(keep);
      DigitsAreValue(Decimal(keep));
    }
  }

  lemma PrefixOne(arg: string)
    ensures HasAllowedPrefix(arg) ==> |arg| > 8 && arg[6] == '1' && arg[7] == '-'
    ensures "--repo1-retention-full=" <= arg ==> HasAllowedPrefix(arg)
    ensures arg == "--repo1-type=s3" ==> |arg| > 8 && arg[6] == '1' && arg[7] == '-' && arg[8] == 't'
    ensures IsRepoOption(arg) ==> |arg| > 6 && arg[6] == '='
  {
  }

  /** Of the listed prefixes only the retention of repository 1 fits a retention option. */
  lemma RepoOne(repo: nat, keep: nat)
    requires 0 < repo <= 256
    ensures var arg := RetentionArg(repo, keep);
            && (HasAllowedPrefix(arg) <==> repo == 1)
            && (repo == 1 ==> "--repo1-retention-full=" <= arg && arg[23..] == Decimal(keep))
            && !IsRepoOption(arg) && !("--type=" <= arg) && arg != "--repo1-type=s3"
  {
    hide HasAllowedPrefix, IsRepoOption, Decimal, RetentionArg;
    var arg := RetentionArg(repo, keep);
    var n := |Decimal(repo)|;
    RetentionParts(repo, keep);
    ReadPrinted(repo);
    assert arg[6] == Decimal(repo)[0] by { assert arg[6..6 + n][0] == arg[6]; }
    assert n > 1 ==> arg[7] == Decimal(repo)[1] by { assert n > 1 ==> arg[6..6 + n][1] == arg[7]; }
    PrefixOne(arg);
    OneOnly(repo);
    assert arg[2] == 'r';
    assert arg[6 + n..6 + n + 16][1] == arg[6 + n + 1] == 'r';
    if repo == 1 {
      RetentionOne(keep);
    }
  }

  lemma OneOnly(repo: nat)
    requires repo > 0
    ensures |Decimal(repo)| == 1 && Decimal(repo)[0] == '1' <==> repo == 1
  {
    ReadPrinted(repo);
    if repo >= 10 {
      assert |Decimal(repo)| == |Decimal(repo / 10)| + 1;
    }
  }

  lemma RetentionOne(keep: nat)
    ensures RetentionArg(1, keep) == "--repo1-retention-full=" + Decimal(keep)
    ensures RetentionArg(1, keep)[23..] == Decimal(keep)
  {
    assert Decimal(1) == "1";
    var arg := "--repo1-retention-full=" + Decimal(keep);
    assert "--repo" + "1" + "-retention-full=" == "--repo1-retention-full=";
    assert arg[23..] == Decimal(keep);
  }

  /** The storage fields that the worker puts on the command line are well formed. */
  predicate GoodStorage(c: Config) {
    IsValue(c.bucket) && IsValue(Region(c))
    && (EndpointHost(c.endpointUrl) == "" || IsValue(EndpointHost(c.endpointUrl)))
  }

  lemma PathValue(target: string)
    requires IsStanza(target)
    ensures IsValue("/" + target)
  {
    AllWeaken(target, IsStanzaChar, IsValueChar);
    AllEach("/", IsValueChar);
    AllConcat("/", target, IsValueChar);
  }

  lemma RemoteArgsAllowed(op: string, c: Config, target: string)
    requires IsStanza(target)
    ensures AllAllowed(op, RemoteArgs(c, target)) <==> GoodStorage(c)
  {
    hide IsAllowed, AllAllowed, IsValue, IsStanza, EndpointHost;
    var host := EndpointHost(c.endpointUrl);
    var a := ["--repo1-type=s3"];
    var b := ["--repo1-s3-bucket=" + c.bucket];
    var e := if host == "" then [] else ["--repo1-s3-endpoint=" + host];
    var r := ["--repo1-s3-region=" + Region(c)];
    var q := ["--repo1-path=/" + target];
    assert RemoteArgs(c, target) == a + b + e + r + q;
    AllowedConcat(op, a, b);
    AllowedConcat(op, a + b, e);
    AllowedConcat(op, a + b + e, r);
    AllowedConcat(op, a + b + e + r, q);
    AllowedOne(op, a[0]);
    AllowedOne(op, b[0]);
    AllowedOne(op, r[0]);
    AllowedOne(op, q[0]);
    FixedArgs();
    ValueArg(op, "--repo1-s3-bucket=", c.bucket);
    ValueArg(op, "--repo1-s3-region=", Region(c));
    PathValue(target);
    ValueArg(op, "--repo1-path=", "/" + target);
    assert "--repo1-path=" + ("/" + target) == "--repo1-path=/" + target;
    if host != "" {
      AllowedOne(op, e[0]);
      ValueArg(op, "--repo1-s3-endpoint=", host);
    } else {
      assert AllAllowed(op, e) by { NoneAllowed(op); }
    }
  }

  lemma NoneAllowed(op: string)
    ensures AllAllowed(op, [])
  {
  }

  lemma RepoArgsAllowed(op: string, c: Config, target: string, repo: nat)
    requires IsStanza(target) && repo <= 256
    ensures AllAllowed(op, RepoArgs(c, target, repo)) <==> (repo == 0 && IsRemote(c) ==> GoodStorage(c))
  {
    hide IsAllowed, AllAllowed, IsStanza, GoodStorage, RemoteArgs;
    if repo != 0 {
      AllowedOne(op, "--repo=" + Decimal(repo));
      RepoArg(op, repo);
    } else if IsRemote(c) {
      RemoteArgsAllowed(op, c, target);
    } else {
      NoneAllowed(op);
    }
  }

  lemma HeadAllowed(op: string, target: string, second: string)
    requires (op == "backup" && second == "--type=full") || (op == "info" && second == "--output=json")
    ensures AllAllowed(op, ["--stanza=" + target, second]) <==> IsStanza(target)
    ensures forall more :: HasStanza(["--stanza=" + target, second] + more)
  {
    hide IsAllowed, IsStanza;
    var a := "--stanza=" + target;
    assert [a] + [second] == [a, second];
    AllowedConcat(op, [a], [second]);
    AllowedOne(op, a);
    AllowedOne(op, second);
    StanzaArg(op, target);
    FixedArgs();
  }

  /** A backup command that the worker builds is accepted by the sidecar if and only if its stanza is well formed, the
      storage fields are where they are used, and no more than 99999 backups are kept outside repository 1. */
  lemma BackupAgrees(c: Config, target: string)
    requires BackupCommand(c, target).Ok?
    ensures IsAccepted(BackupCommand(c, target).value) <==>
            && IsStanza(target)
            && (c.repo.n == 0 && IsRemote(c) ==> GoodStorage(c))
            && (c.repo.n >= 2 ==> c.keepDaily < 100000)
  {
    hide IsAllowed, AllAllowed, IsStanza, GoodStorage, RepoArgs, HasStanza;
    var repo := RepoNumber(c).value;
    var cmd := BackupCommand(c, target).value;
    var head := ["--stanza=" + target, "--type=full"];
    var args := RepoArgs(c, target, repo);
    var shown := if repo == 0 then 1 else repo;
    var keep := if c.keepDaily > 0 then [RetentionArg(shown, c.keepDaily)] else [];
    assert cmd[2..] == head + (args + keep);
    HeadAllowed("backup", target, "--type=full");
    AllowedConcat("backup", head, args + keep);
    AllowedConcat("backup", args, keep);
    if IsStanza(target) {
      RepoArgsAllowed("backup", c, target, repo);
    }
    NoneAllowed("backup");
    if c.keepDaily > 0 {
      AllowedOne("backup", keep[0]);
      RetentionAllowed("backup", shown, c.keepDaily);
    }
  }

  /** An info command is accepted if and only if its stanza and, where they are used, its storage fields are well
      formed. */
  lemma InfoAgrees(c: Config, target: string)
    requires InfoCommand(c, target).Ok?
    ensures IsAccepted(InfoCommand(c, target).value) <==>
            IsStanza(target) && (c.repo.n == 0 && IsRemote(c) ==> GoodStorage(c))
  {
    hide IsAllowed, AllAllowed, IsStanza, GoodStorage, RepoArgs, HasStanza;
    var repo := RepoNumber(c).value;
    var cmd := InfoCommand(c, target).value;
    var head := ["--stanza=" + target, "--output=json"];
    var args := RepoArgs(c, target, repo);
    assert cmd[2..] == head + args;
    HeadAllowed("info", target, "--output=json");
    AllowedConcat("info", head, args);
    if IsStanza(target) {
      RepoArgsAllowed("info", c, target, repo);
    }
  }

  // ---- Which repository a command names ----

  /** A command for a configuration with repository `n` may hold `arg`. */
  predicate Suits(n: nat, remote: bool, arg: string) {
    && ("--repo=" <= arg ==> n > 0 && arg == "--repo=" + Decimal(n))
    && (arg == "--repo1-type=s3" ==> n == 0 && remote)
  }

  lemma DifferentSuits(n: nat, remote: bool, arg: string)
    requires |arg| < 7 || arg[2] != 'r' || arg[0] != '-'
    ensures Suits(n, remote, arg)
  {
  }

  lemma OtherSuits(n: nat, remote: bool, arg: string)
    requires |arg| > 8 && arg[6] != '=' && (arg[2] != 'r' || arg[8] != 't')
    ensures Suits(n, remote, arg)
  {
  }

  lemma HeadSuits(n: nat, remote: bool, target: string)
    ensures Suits(n, remote, "pgbackrest") && Suits(n, remote, "backup") && Suits(n, remote, "info")
    ensures Suits(n, remote, "--type=full") && Suits(n, remote, "--output=json")
    ensures Suits(n, remote, "--stanza=" + target)
  {
    hide Suits;
    DifferentSuits(n, remote, "pgbackrest");
    DifferentSuits(n, remote, "backup");
    DifferentSuits(n, remote, "info");
    DifferentSuits(n, remote, "--type=full");
    DifferentSuits(n, remote, "--output=json");
    DifferentSuits(n, remote, "--stanza=" + target);
  }

  lemma RemoteSuits(c: Config, target: string)
    requires IsRemote(c)
    ensures forall arg :: arg in RemoteArgs(c, target) ==> Suits(0, true, arg)
    ensures "--repo1-type=s3" in RemoteArgs(c, target)
  {
    hide EndpointHost, Decimal, Suits;
    assert Suits(0, true, "--repo1-type=s3") by { SiteSuits(); }
    OtherSuits(0, true, "--repo1-s3-bucket=" + c.bucket);
    OtherSuits(0, true, "--repo1-s3-endpoint=" + EndpointHost(c.endpointUrl));
    OtherSuits(0, true, "--repo1-s3-region=" + Region(c));
    OtherSuits(0, true, "--repo1-path=/" + target);
    assert "--repo1-type=s3" == RemoteArgs(c, target)[0];
  }

  lemma SiteSuits()
    ensures Suits(0, true, "--repo1-type=s3")
  {
    assert "--repo1-type=s3"[6] == '1';
  }

  lemma ChosenSuits(n: nat, remote: bool)
    requires n > 0
    ensures Suits(n, remote, "--repo=" + Decimal(n))
  {
    hide Decimal;
    assert ("--repo=" + Decimal(n))[6] == '=' && "--repo1-type=s3"[6] == '1';
  }

  lemma KeepSuits(n: nat, remote: bool, repo: nat, keep: nat)
    requires 0 < repo <= 256
    ensures Suits(n, remote, RetentionArg(repo, keep))
  {
    hide Decimal, RetentionArg, IsRepoOption, HasAllowedPrefix;
    var arg := RetentionArg(repo, keep);
    RetentionParts(repo, keep);
    RepoOne(repo, keep);
    ReadPrinted(repo);
    assert arg[6..6 + |Decimal(repo)|][0] == arg[6];
  }

  lemma RepoArgsSuit(c: Config, target: string, n: nat)
    ensures forall arg :: arg in RepoArgs(c, target, n) ==> Suits(n, IsRemote(c), arg)
    ensures n > 0 ==> "--repo=" + Decimal(n) in RepoArgs(c, target, n)
    ensures n == 0 && IsRemote(c) ==> "--repo1-type=s3" in RepoArgs(c, target, n)
  {
    hide Suits, Decimal, RemoteArgs;
    if n > 0 {
      ChosenSuits(n, IsRemote(c));
    } else if IsRemote(c) {
      RemoteSuits(c, target);
    }
  }

  /** A command is built if and only if the repository number can be read and lies between 0 and 256. It then names a
      repository with `--repo=` exactly if the number is positive, and no other one; and it describes repository 1 by
      the storage fields exactly if the number is 0 and the storage is remote. */
  lemma RepoChoice(c: Config, target: string, backup: bool)
    ensures var r := if backup then BackupCommand(c, target) else InfoCommand(c, target);
            && (r.Ok? <==> c.repo.Number? && 0 <= c.repo.n <= 256)
            && (r.Ok? ==>
                  && (forall arg :: arg in r.value && "--repo=" <= arg ==>
                      c.repo.n > 0 && arg == "--repo=" + Decimal(c.repo.n))
                  && (c.repo.n > 0 ==> "--repo=" + Decimal(c.repo.n) in r.value)
                  && ("--repo1-type=s3" in r.value <==> c.repo.n == 0 && IsRemote(c)))
  {
    hide RepoArgs, Decimal, IsRemote;
    if RepoNumber(c).Ok? {
      hide Suits;
      var n := c.repo.n;
      var r := if backup then BackupCommand(c, target) else InfoCommand(c, target);
      HeadSuits(n, IsRemote(c), target);
      RepoArgsSuit(c, target, n);
      var shown := if n == 0 then 1 else n;
      if backup && c.keepDaily > 0 {
        KeepSuits(n, IsRemote(c), shown, c.keepDaily);
      }
      forall arg | arg in r.value ensures Suits(n, IsRemote(c), arg) {
      }
      AllSuit(n, IsRemote(c), r.value);
    }
  }

  lemma AllSuit(n: nat, remote: bool, args: seq<string>)
    requires forall arg :: arg in args ==> Suits(n, remote, arg)
    ensures forall arg :: arg in args && "--repo=" <= arg ==> n > 0 && arg == "--repo=" + Decimal(n)
    ensures "--repo1-type=s3" in args ==> n == 0 && remote
  {
    hide Decimal;
  }
}
