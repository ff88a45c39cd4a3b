/** What a built command asks of pgbackrest, read back from its arguments, and what the sidecar can be asked at all. */
module BackupArguments {
  import opened Text
  import opened Numbers
  import opened BackupCommands

  // ---- The settings of a command ----

  /** The values given behind `name`, in order. */
  function Settings(args: seq<string>, name: string): seq<string> {
    if args == [] then []
    else (if name <= args[0] then [args[0][|name|..]] else []) + Settings(args[1..], name)
  }

  lemma {:induction false} SettingsConcat(a: seq<string>, b: seq<string>, name: string)
    ensures Settings(a + b, name) == Settings(a, name) + Settings(b, name)
  {
    if a == [] {
      assert a + b == b;
    } else {
      assert (a + b)[1..] == a[1..] + b;
      SettingsConcat(a[1..], b, name);
    }
  }

  lemma SettingsFirst(arg: string, rest: seq<string>, name: string)
    ensures Settings([arg] + rest, name) == (if name <= arg then [arg[|name|..]] else []) + Settings(rest, name)
  {
    assert ([arg] + rest)[1..] == rest;
  }

  /** An argument that differs from a name in one place sets something else. */
  predicate Differs(arg: string, name: string, i: nat) {
    i < |name| && (i >= |arg| || arg[i] != name[i])
  }

  lemma NotSet(arg: string, name: string, i: nat)
    requires Differs(arg, name, i)
    ensures !(name <= arg)
  {
  }

  lemma IsSet(name: string, value: string)
    ensures name <= name + value && (name + value)[|name|..] == value
  {
  }

  // ---- The names the worker uses ----

  const STANZA := "--stanza="
  const BUCKET := "--repo1-s3-bucket="
  const ENDPOINT := "--repo1-s3-endpoint="
  const REGION := "--repo1-s3-region="
  const PATH := "--repo1-path="
  const TYPE := "--repo1-type="

  /** Where each of these names differs from all others, and from the other arguments. */
  predicate IsName(name: string) {
    || name == STANZA || name == BUCKET || name == ENDPOINT || name == REGION || name == PATH || name == TYPE
  }

  /** The place that tells such a name from the others: that of `s` in the first, that behind `s3-` or `repo1-`. */
  lemma NamesApart(name: string, other: string, value: string)
    requires IsName(name) && IsName(other)
    ensures name <= other + value <==> name == other
  {
    if name != other {
      var arg := other + value;
      if name == STANZA || other == STANZA {
        NotSet(arg, name, 2);
      } else if name == PATH || other == PATH || name == TYPE || other == TYPE {
        NotSet(arg, name, 8);
      } else {
        NotSet(arg, name, 11);
      }
    }
  }

  lemma OthersApart(name: string)
    requires IsName(name)
    ensures !(name <= "pgbackrest") && !(name <= "backup") && !(name <= "info")
    ensures !(name <= "--type=full") && !(name <= "--output=json")
  {
    NotSet("pgbackrest", name, 0);
    NotSet("backup", name, 0);
    NotSet("info", name, 0);
    NotSet("--type=full", name, 2);
    NotSet("--output=json", name, 2);
  }

  lemma NumberedApart(name: string, n: nat)
    requires IsName(name)
    ensures !(name <= "--repo=" + Decimal(n))
  {
    hide Decimal;
    NotSet("--repo=" + Decimal(n), name, if name == STANZA then 2 else 6);
  }

  lemma RetentionApart(name: string, repo: nat, keep: nat)
    requires IsName(name) && 0 < repo <= 256
    ensures !(name <= RetentionArg(repo, keep))
  {
    hide Decimal, RetentionArg;
    var arg := RetentionArg(repo, keep);
    var n := |Decimal(repo)|;
    RetentionParts(repo, keep);
    assert arg[2] == 'r';
    if name == STANZA {
      NotSet(arg, name, 2);
    } else if n == 1 {
      assert arg[7..23][1] == arg[8] == 'r';
      NotSet(arg, name, 8);
    } else {
      ReadPrinted(repo);
      assert arg[6..6 + n][1] == arg[7] == Decimal(repo)[1];
      NotSet(arg, name, 7);
    }
  }

  // ---- What is set ----

  lemma HeadSettings(op: string, target: string, second: string, name: string)
    requires IsName(name) && (op == "backup" || op == "info") && (second == "--type=full" || second == "--output=json")
    ensures Settings(["pgbackrest", op, STANZA + target, second], name) == if name == STANZA then [target] else []
  {
    OthersApart(name);
    NamesApart(name, STANZA, target);
    IsSet(STANZA, target);
    assert [second][1..] == [] && Settings([], name) == [];
    hide Settings, IsName;
    var c := STANZA + target;
    assert [c, second] == [c] + [second] && [op, c, second] == [op] + [c, second];
    assert ["pgbackrest", op, c, second] == ["pgbackrest"] + [op, c, second] && [second] == [second] + [];
    SettingsFirst(second, [], name);
    SettingsFirst(c, [second], name);
    SettingsFirst(op, [c, second], name);
    SettingsFirst("pgbackrest", [op, c, second], name);
    assert Settings([], name) == [] by { NoSettings(name); }
  }

  lemma NoSettings(name: string)
    ensures Settings([], name) == []
  {
  }

  /** The settings of the storage, as the configuration has them. */
  function StorageSetting(c: Config, target: string, name: string): seq<string> {
    if name == BUCKET then [c.bucket]
    else if name == ENDPOINT then (if EndpointHost(c.endpointUrl) == "" then [] else [EndpointHost(c.endpointUrl)])
    else if name == REGION then [if c.region == "" then "us-east-1" else c.region]
    else if name == PATH then ["/" + target]
    else if name == TYPE then ["s3"]
    else []
  }

  lemma OneSetting(name: string, other: string, value: string)
    requires IsName(name) && IsName(other)
    ensures Settings([other + value], name) == if name == other then [value] else []
  {
    NamesApart(name, other, value);
    IsSet(other, value);
    NoSettings(name);
    var arg := other + value;
    assert [arg] == [arg] + [];
    SettingsFirst(arg, [], name);
  }

  lemma RemoteSettings(c: Config, target: string, name: string)
    requires IsName(name)
    ensures Settings(RemoteArgs(c, target), name) == StorageSetting(c, target, name)
  {
    hide Settings, IsName, EndpointHost;
    var host := EndpointHost(c.endpointUrl);
    var a, b := [TYPE + "s3"], [BUCKET + c.bucket];
    var e := if host == "" then [] else [ENDPOINT + host];
    var r, q := [REGION + Region(c)], [PATH + ("/" + target)];
    assert PATH + ("/" + target) == "--repo1-path=/" + target && TYPE + "s3" == "--repo1-type=s3";
    assert RemoteArgs(c, target) == a + b + e + r + q;
    SettingsConcat(a, b, name);
    SettingsConcat(a + b, e, name);
    SettingsConcat(a + b + e, r, name);
    SettingsConcat(a + b + e + r, q, name);
    NoSettings(name);
    assert IsName(BUCKET) && IsName(ENDPOINT) && IsName(REGION) && IsName(PATH) && IsName(TYPE) by { AreNames(); }
    OneSetting(name, TYPE, "s3");
    OneSetting(name, BUCKET, c.bucket);
    OneSetting(name, REGION, Region(c));
    OneSetting(name, PATH, "/" + target);
    if host != "" {
      OneSetting(name, ENDPOINT, host);
    }
  }

  lemma AreNames()
    ensures IsName(BUCKET) && IsName(ENDPOINT) && IsName(REGION) && IsName(PATH) && IsName(TYPE)
  {
  }

  lemma RepoSettings(c: Config, target: string, n: nat, name: string)
    requires IsName(name)
    ensures Settings(RepoArgs(c, target, n), name) ==
            if n == 0 && IsRemote(c) then StorageSetting(c, target, name) else []
  {
    hide Settings, RemoteArgs, Decimal, IsName, StorageSetting;
    NoSettings(name);
    if n != 0 {
      NumberedApart(name, n);
      var arg := "--repo=" + Decimal(n);
      assert [arg] == [arg] + [];
      SettingsFirst(arg, [], name);
    } else if IsRemote(c) {
      RemoteSettings(c, target, name);
    }
  }

  /** A built command is for the stanza of the job, and it gives the storage of the configuration, each setting once and
      with its own value, exactly where the repository is described by the worker; the path is that of the stanza. */
  lemma CommandSettings(c: Config, target: string, backup: bool, name: string)
    requires IsName(name)
    ensures var r := if backup then BackupCommand(c, target) else InfoCommand(c, target);
            r.Ok? ==>
              && |r.value| >= 4 && r.value[0] == "pgbackrest" && r.value[1] == (if backup then "backup" else "info")
              && r.value[3] == (if backup then "--type=full" else "--output=json")
              && Settings(r.value, name) ==
                 if name == STANZA then [target]
                 else if c.repo.n == 0 && IsRemote(c) then StorageSetting(c, target, name)
                 else []
  {
    hide Settings, RepoArgs, IsRemote, Decimal, IsName, EndpointHost;
    if RepoNumber(c).Ok? {
      var n := c.repo.n;
      var op, second := if backup then "backup" else "info", if backup then "--type=full" else "--output=json";
      var head := ["pgbackrest", op, STANZA + target, second];
      var args := RepoArgs(c, target, n);
      var shown := if n == 0 then 1 else n;
      HeadSettings(op, target, second, name);
      RepoSettings(c, target, n, name);
      SettingsConcat(head, args, name);
      Regroup(head + args, [], []);
      var r := if backup then BackupCommand(c, target) else InfoCommand(c, target);
      if backup && c.keepDaily > 0 {
        var keep := RetentionArg(shown, c.keepDaily);
        RetentionApart(name, shown, c.keepDaily);
        SettingsConcat(head + args, [keep], name);
        NoSettings(name);
        assert [keep] == [keep] + [];
        SettingsFirst(keep, [], name);
        assert r.value == head + args + [keep];
      } else {
        assert r.value == head + args;
      }
    }
  }

  /** How many backups are kept is said exactly if the configuration says it, last, and of the repository that the
      backup goes to; before that, a backup has the options of an inquiry. */
  lemma RetentionExactly(c: Config, target: string)
    ensures BackupCommand(c, target).Ok? <==> InfoCommand(c, target).Ok?
    ensures BackupCommand(c, target).Ok? ==>
              BackupCommand(c, target).value[4..] ==
              InfoCommand(c, target).value[4..]
              + if c.keepDaily <= 0 then []
                else ["--repo" + Decimal(if c.repo.n == 0 then 1 else c.repo.n) + "-retention-full="
                      + Decimal(c.keepDaily)]
  {
    hide RepoArgs, Decimal;
    if RepoNumber(c).Ok? {
      var args := RepoArgs(c, target, c.repo.n);
      var backup, info := "--type=full", "--output=json";
      var keep := if c.keepDaily <= 0 then [] else [RetentionArg(if c.repo.n == 0 then 1 else c.repo.n, c.keepDaily)];
      BehindFour("pgbackrest", "info", STANZA + target, info, args, []);
      BehindFour("pgbackrest", "backup", STANZA + target, backup, args, keep);
    }
  }

  lemma BehindFour(a: string, b: string, c: string, d: string, args: seq<string>, more: seq<string>)
    ensures ([a, b, c, d] + args + more)[4..] == args + more
    ensures more == [] ==> [a, b, c, d] + args + more == [a, b, c, d] + args && args + more == args
  {
    var head := [a, b, c, d];
    Regroup(head, args, more);
    assert (head + (args + more))[4..] == args + more;
  }

  // ---- The host of the storage ----

  lemma {:induction false} DropSlashesAfter(host: string, n: nat)
    requires host != "" ==> host[|host| - 1] != '/'
    ensures DropSlashes(host + seq(n, _ => '/')) == host
  {
    var s := host + seq(n, _ => '/');
    if n == 0 {
      assert s == host;
    } else {
      assert s[..|s| - 1] == host + seq(n - 1, _ => '/') && s[|s| - 1] == '/';
      DropSlashesAfter(host, n - 1);
    }
  }

  /** An address with or without a scheme, and with any slashes at its end, gives its host. */
  lemma HostSpelled(scheme: string, host: string, n: nat)
    requires scheme == "" || scheme == "https://" || scheme == "http://"
    requires host != "" && host[|host| - 1] != '/' && !IsSpace(host[0]) && !IsSpace(host[|host| - 1])
    requires var s := host + seq(n, _ => '/'); scheme == "" ==> !("https://" <= s) && !("http://" <= s)
    ensures EndpointHost(scheme + host + seq(n, _ => '/')) == host
  {
    hide DropSlashes, Strip;
    var slashes := seq(n, _ => '/');
    var s := scheme + host + slashes;
    DropSlashesAfter(host, n);
    assert !IsSpace('/') && !IsSpace('h');
    assert Stripped(s) by {
      assert s[0] == if scheme == "" then host[0] else 'h';
      assert s[|s| - 1] == if n == 0 then host[|host| - 1] else '/';
    }
    StripStripped(s);
    if scheme == "https://" {
      assert scheme <= s && s[8..] == host + slashes;
    } else if scheme == "http://" {
      assert s[4] == ':' && scheme <= s && s[7..] == host + slashes;
    } else {
      assert s == host + slashes;
    }
  }

  // ---- What the sidecar can be asked ----

  /** A letter, a digit, or one of six marks: nothing that a shell or a template could read as more than text. */
  predicate IsHarmless(c: char) {
    'a' <= c <= 'z' || 'A' <= c <= 'Z' || '0' <= c <= '9' || c in {'-', '_', '.', ':', '/', '='}
  }

  lemma HarmlessParts(head: string, rest: string, p: char -> bool)
    requires All(head, IsHarmless) && All(rest, p) && forall c :: p(c) ==> IsHarmless(c)
    ensures All(head + rest, IsHarmless)
  {
    AllWeaken(rest, p, IsHarmless);
    AllConcat(head, rest, IsHarmless);
  }

  lemma HarmlessNames()
    ensures All("--stanza=", IsHarmless) && All("--repo=", IsHarmless) && All("--repo", IsHarmless)
    ensures All("-retention-full=", IsHarmless)
    ensures All("--repo1-retention-full=", IsHarmless) && All("--repo1-s3-bucket=", IsHarmless)
    ensures All("--repo1-s3-endpoint=", IsHarmless) && All("--repo1-s3-region=", IsHarmless)
    ensures All("--repo1-path=", IsHarmless)
  {
    hide All;
    AllEach("--stanza=", IsHarmless);
    AllEach("--repo=", IsHarmless);
    AllEach("--repo", IsHarmless);
    AllEach("-retention-full=", IsHarmless);
    AllEach("--repo1-retention-full=", IsHarmless);
    AllEach("--repo1-s3-bucket=", IsHarmless);
    AllEach("--repo1-s3-endpoint=", IsHarmless);
    AllEach("--repo1-s3-region=", IsHarmless);
    AllEach("--repo1-path=", IsHarmless);
  }

  lemma HarmlessWords()
    ensures All("--type=full", IsHarmless) && All("--type=diff", IsHarmless) && All("--type=incr", IsHarmless)
    ensures All("--repo1-type=s3", IsHarmless) && All("--output=json", IsHarmless)
  {
    hide All;
    AllEach("--type=full", IsHarmless);
    AllEach("--type=diff", IsHarmless);
    AllEach("--type=incr", IsHarmless);
    AllEach("--repo1-type=s3", IsHarmless);
    AllEach("--output=json", IsHarmless);
  }

  lemma RetentionHarmless(arg: string, n: nat)
    requires IsRetentionAt(arg, n)
    ensures All(arg, IsHarmless) && "--" <= arg
  {
    hide All;
    HarmlessNames();
    var a, b, c, d := arg[..6], arg[6..6 + n], arg[6 + n..6 + n + 16], arg[6 + n + 16..];
    assert arg == a + b + c + d && a == "--repo";
    HarmlessParts(a, b, IsDigit);
    AllConcat(a + b, c, IsHarmless);
    HarmlessParts(a + b + c, d, IsDigit);
  }

  lemma ValueHarmless(arg: string, name: string)
    requires name <= arg && All(name, IsHarmless) && name != "" && name[|name| - 1] == '='
    requires (forall i :: 0 <= i < |name| - 1 ==> name[i] != '=') && IsValue(AfterEquals(arg))
    ensures All(arg, IsHarmless)
  {
    hide All, AfterEquals;
    IndexOfIn(arg, name);
    assert arg == name + arg[|name|..];
    HarmlessParts(name, arg[|name|..], IsValueChar);
  }

  lemma AllowedHarmless(op: string, arg: string)
    requires IsAllowed(op, arg)
    ensures All(arg, IsHarmless) && "--" <= arg
  {
    hide All, AfterEquals, IsRetentionAt, IsValue;
    HarmlessNames();
    HarmlessWords();
    if "--stanza=" <= arg && IsStanza(arg[9..]) {
      assert arg == "--stanza=" + arg[9..];
      HarmlessParts("--stanza=", arg[9..], IsStanzaChar);
    } else if IsRepoOption(arg) {
      assert arg == "--repo=" + arg[7..];
      HarmlessParts("--repo=", arg[7..], IsDigit);
    } else if IsRetention(arg) {
      if IsRetentionAt(arg, 1) {
        RetentionHarmless(arg, 1);
      } else if IsRetentionAt(arg, 2) {
        RetentionHarmless(arg, 2);
      } else {
        RetentionHarmless(arg, 3);
      }
    } else if HasAllowedPrefix(arg) && IsValue(AfterEquals(arg)) {
      PrefixHarmless(arg);
    }
  }

  lemma PrefixHarmless(arg: string)
    requires HasAllowedPrefix(arg) && IsValue(AfterEquals(arg))
    ensures All(arg, IsHarmless) && "--" <= arg
  {
    hide All, AfterEquals, IsValue;
    HarmlessNames();
    if "--repo1-retention-full=" <= arg {
      ValueHarmless(arg, "--repo1-retention-full=");
    } else if BUCKET <= arg {
      ValueHarmless(arg, BUCKET);
    } else if ENDPOINT <= arg {
      ValueHarmless(arg, ENDPOINT);
    } else if REGION <= arg {
      ValueHarmless(arg, REGION);
    } else {
      ValueHarmless(arg, PATH);
    }
  }

  lemma {:induction false} AllAllowedAt(op: string, args: seq<string>, k: nat)
    requires AllAllowed(op, args) && k < |args|
    ensures IsAllowed(op, args[k])
  {
    hide IsAllowed;
    if k > 0 {
      AllAllowedAt(op, args[1..], k - 1);
    }
  }

  /** Whatever the other program asks, the sidecar runs only `pgbackrest backup` or `pgbackrest info`, with options
      made of letters, digits and six marks. */
  lemma AcceptedHarmless(cmd: seq<string>)
    requires IsAccepted(cmd)
    ensures |cmd| > 2 && cmd[0] == "pgbackrest" && (cmd[1] == "backup" || cmd[1] == "info")
    ensures forall k, i :: 2 <= k < |cmd| && 0 <= i < |cmd[k]| ==> IsHarmless(cmd[k][i])
    ensures forall k :: 2 <= k < |cmd| ==> "--" <= cmd[k]
  {
    hide IsAllowed, AllAllowed, HasStanza;
    assert cmd[2..] != [] by { StanzaThere(cmd[2..]); }
    forall k | 2 <= k < |cmd| ensures All(cmd[k], IsHarmless) && "--" <= cmd[k] {
      AllAllowedAt(cmd[1], cmd[2..], k - 2);
      assert cmd[2..][k - 2] == cmd[k];
      AllowedHarmless(cmd[1], cmd[k]);
    }
    forall k, i | 2 <= k < |cmd| && 0 <= i < |cmd[k]| ensures IsHarmless(cmd[k][i]) {
      AllEach(cmd[k], IsHarmless);
    }
  }

  lemma StanzaThere(args: seq<string>)
    requires HasStanza(args)
    ensures args != []
  {
  }

  /** A stanza is well formed exactly if it is made of ASCII letters, digits and underscores, and not empty. */
  lemma StanzaExactly(op: string, target: string)
    ensures IsAllowed(op, "--stanza=" + target) <==>
            target != "" && forall i :: 0 <= i < |target| ==>
              'a' <= target[i] <= 'z' || 'A' <= target[i] <= 'Z' || '0' <= target[i] <= '9' || target[i] == '_'
  {
    hide IsAllowed;
    StanzaArg(op, target);
    AllEach(target, IsStanzaChar);
  }

  /** A storage setting passes exactly if it is made of these and of four marks, and not empty. */
  lemma SettingExactly(op: string, name: string, value: string)
    requires name == BUCKET || name == ENDPOINT || name == REGION || name == PATH
    ensures IsAllowed(op, name + value) <==>
            value != "" && forall i :: 0 <= i < |value| ==>
              || 'a' <= value[i] <= 'z' || 'A' <= value[i] <= 'Z' || '0' <= value[i] <= '9'
              || value[i] in {'_', '.', ':', '/', '-'}
  {
    hide IsAllowed;
    ValueArg(op, name, value);
    AllEach(value, IsValueChar);
  }
}
