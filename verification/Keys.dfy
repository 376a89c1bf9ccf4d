/** The key names of the report tree in etcd, and how they are taken apart again. */
module Keys {

  function Digit(d: nat): char
    requires d < 10
  {
    "0123456789"[d]
  }

  /** `%d` of an unsigned number. */
  function Decimal(n: nat): (s: string)
    ensures |s| > 0
    ensures '/' !in s
  {
    if n < 10 then [Digit(n)] else Decimal(n / 10) + [Digit(n % 10)]
  }

  /** Names that are one segment of an etcd path, and not a hidden one, as every Kubernetes pod name is. */
  predicate IsSegment(name: string) {
    '/' !in name && name != "" && name != "." && name != ".." && name[0] != '_'
  }

  /** The directory of one pod: tree root, "agents", pod name. */
  function AgentTreeRoot(etcdTree: string, agentName: string): string {
    etcdTree + "/agents/" + agentName
  }

  /** The key of one report: the pod's directory, then the uptime. */
  function AgentReportNodeName(etcdTree: string, podName: string, uptime: nat): string {
    AgentTreeRoot(etcdTree, podName) + "/" + Decimal(uptime)
  }

  /** Splitting at every slash; a string without one is its own single segment. */
  function Split(path: string): (segments: seq<string>)
    ensures |segments| > 0
    ensures forall s :: s in segments ==> '/' !in s
  {
    if path == "" then [""]
    else
      var rest := Split(path[..|path| - 1]);
      if path[|path| - 1] == '/' then rest + [""]
      else rest[..|rest| - 1] + [rest[|rest| - 1] + [path[|path| - 1]]]
  }

  function Last<T>(s: seq<T>): T
    requires |s| > 0
  {
    s[|s| - 1]
  }

  function Join(segments: seq<string>): string
    requires |segments| > 0
  {
    if |segments| == 1 then segments[0]
    else Join(segments[..|segments| - 1]) + "/" + Last(segments)
  }

  /** Splitting loses nothing: joining the segments gives the path back. */
  lemma {:induction false} JoinSplit(path: string)
    ensures Join(Split(path)) == path
  {
    if path != "" {
      var init := path[..|path| - 1];
      var rest := Split(init);
      JoinSplit(init);
      assert path == init + [Last(path)];
      if Last(path) == '/' {
        assert (rest + [""])[..|rest|] == rest;
      } else {
        var grown := rest[..|rest| - 1] + [Last(rest) + [Last(path)]];
        assert grown[..|grown| - 1] == rest[..|rest| - 1];
        if |rest| > 1 {
          assert Join(grown) == Join(rest[..|rest| - 1]) + "/" + (Last(rest) + [Last(path)]);
          assert Join(rest) == Join(rest[..|rest| - 1]) + "/" + Last(rest);
        }
      }
    }
  }

  /** The last segment of a path that ends in a slash-free name is that name. */
  lemma {:induction false} LastSegment(prefix: string, name: string)
    requires '/' !in name
    ensures Split(prefix + "/" + name) == Split(prefix) + [name]
  {
    var path := prefix + "/" + name;
    if name == "" {
      assert path[..|path| - 1] == prefix;
    } else {
      var init := name[..|name| - 1];
      LastSegment(prefix, init);
      assert path[..|path| - 1] == prefix + "/" + init;
      assert Last(path) == Last(name) != '/';
      assert name == init + [Last(name)];
      var rest := Split(prefix) + [init];
      assert rest[..|rest| - 1] == Split(prefix);
    }
  }

  /** The name that getAgents reads off a directory key is the pod's own, for every tree root. */
  lemma DirectoryKeyNamesPod(etcdTree: string, podName: string)
    requires '/' !in podName
    ensures Last(Split(AgentTreeRoot(etcdTree, podName))) == podName
  {
    LastSegment(etcdTree + "/agents", podName);
    assert AgentTreeRoot(etcdTree, podName) == etcdTree + "/agents" + "/" + podName;
  }

  lemma {:induction false} DecimalInjective(m: nat, n: nat)
    requires Decimal(m) == Decimal(n)
    ensures m == n
  {
    if m < 10 || n < 10 {
      assert Last(Decimal(m)) == Digit(m % 10);
      assert Last(Decimal(n)) == Digit(n % 10);
      assert |Decimal(m / 10)| > 0 && |Decimal(n / 10)| > 0;
    } else {
      var a, b := Decimal(m / 10), Decimal(n / 10);
      assert a == Decimal(m)[..|Decimal(m)| - 1] == Decimal(n)[..|Decimal(n)| - 1] == b;
      assert Last(Decimal(m)) == Digit(m % 10) && Last(Decimal(n)) == Digit(n % 10);
      DecimalInjective(m / 10, n / 10);
    }
  }

  /** The number that a string of decimal digits denotes. */
  function Denoted(s: string): int {
    if s == "" then 0 else 10 * Denoted(s[..|s| - 1]) + (Last(s) as int - '0' as int)
  }

  /** The print of a number consists of digits, denotes it, and has no leading zero. */
  lemma {:induction false} DecimalDenotes(n: nat)
    ensures Denoted(Decimal(n)) == n
    ensures forall c :: c in Decimal(n) ==> '0' <= c <= '9'
    ensures n > 0 ==> Decimal(n)[0] != '0'
  {
    var last := Decimal(n)[|Decimal(n)| - 1];
    assert last as int - '0' as int == n % 10;
    if n < 10 {
      assert Decimal(n)[..0] == "";
    } else {
      DecimalDenotes(n / 10);
      assert Decimal(n)[..|Decimal(n)| - 1] == Decimal(n / 10);
    }
  }

  /** A record key is the root, "agents", the pod and the uptime, segment by segment. */
  lemma RecordKeySegments(etcdTree: string, podName: string, uptime: nat)
    requires '/' !in podName
    ensures Split(AgentTreeRoot(etcdTree, podName)) == Split(etcdTree) + ["agents", podName]
    ensures Split(AgentReportNodeName(etcdTree, podName, uptime)) ==
      Split(etcdTree) + ["agents", podName, Decimal(uptime)]
  {
    LastSegment(etcdTree, "agents");
    LastSegment(etcdTree + "/" + "agents", podName);
    assert AgentTreeRoot(etcdTree, podName) == etcdTree + "/" + "agents" + "/" + podName;
    LastSegment(AgentTreeRoot(etcdTree, podName), Decimal(uptime));
    assert AgentReportNodeName(etcdTree, podName, uptime) ==
      AgentTreeRoot(etcdTree, podName) + "/" + Decimal(uptime);
  }

  /** No two (pod, uptime) pairs share a record key. */
  lemma RecordKeyInjective(etcdTree: string, pod: string, uptime: nat, pod': string, uptime': nat)
    requires '/' !in pod && '/' !in pod'
    requires AgentReportNodeName(etcdTree, pod, uptime) == AgentReportNodeName(etcdTree, pod', uptime')
    ensures pod == pod' && uptime == uptime'
  {
    var dir, dir' := AgentTreeRoot(etcdTree, pod), AgentTreeRoot(etcdTree, pod');
    LastSegment(dir, Decimal(uptime));
    LastSegment(dir', Decimal(uptime'));
    assert Split(dir) + [Decimal(uptime)] == Split(dir') + [Decimal(uptime')];
    assert Last(Split(dir) + [Decimal(uptime)]) == Decimal(uptime);
    assert Last(Split(dir') + [Decimal(uptime')]) == Decimal(uptime');
    DecimalInjective(uptime, uptime');
    var both := Split(dir) + [Decimal(uptime)];
    assert Split(dir) == both[..|both| - 1] == Split(dir');
    DirectoryKeyNamesPod(etcdTree, pod);
    DirectoryKeyNamesPod(etcdTree, pod');
  }
}
