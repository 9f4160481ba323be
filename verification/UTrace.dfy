/**
  The UTrace session lifecycle: open, enable, disable, read and close over native, Java and kernel backends,
  with any backend call failing at any point, and a client that closes each handle it was given at most once.

  Descriptors come from two counters. The native, Java and JVM-parent descriptors are PmuList descriptors; the
  kernel descriptors are counted separately, so a kernel-only handle may equal a live user handle.
*/
module UTrace {
  const NONE := -1

  datatype Jvm = Jvm(javaPd: int, nativePd: int)

  datatype Kern = Kern(kernelPd: int, kernelOnly: bool)

  /** How far OpenNativeBackend gets: no probe point or descriptor; probes not installed; sampling refused. */
  datatype NativeTry = NoPoints | InstallFails | RegisterFails | NativeOpens

  datatype JavaTry = NoPid | AttachFails | JavaOpens

  /** How far KernelTraceManager.Open gets: before or after its descriptor is taken. */
  datatype KernelTry = EarlyFailure | LateFailure | KernelOpens

  datatype Request = Request(user: bool, java: bool, nativeSymbols: bool, kernel: bool)

  /** What the backends will answer. */
  datatype Env = Env(parentPd: bool, native: NativeTry, java: JavaTry, prepared: bool, kernel: KernelTry)

  datatype Answers = Answers(native: bool, java: bool, kernel: bool)

  datatype Call =
    | Open(req: Request, env: Env)
    | Enable(pd: int, answers: Answers)
    | Disable(pd: int, answers: Answers)
    | Read(pd: int, answers: Answers)
    | Close(pd: int)

  // ----- What every call keeps -----

  /** Every PmuList descriptor ever handed out is either live or was closed exactly once. */
  ghost predicate PmuLedger(maxPd: nat, owner: map<int, int>, closed: multiset<int>) {
    && (forall p :: p in owner ==> 1 <= p <= maxPd)
    && forall p :: closed[p] == if 1 <= p <= maxPd && p !in owner then 1 else 0
  }

  predicate Names(s: Jvm, p: int) {
    p >= 0 && (p == s.javaPd || p == s.nativePd)
  }

  /** A live descriptor is its session's handle, or a backend its session entry names. */
  ghost predicate Owned(users: set<int>, owner: map<int, int>, jvm: map<int, Jvm>) {
    && (forall u :: u in users ==> u in owner && owner[u] == u)
    && forall p :: p in owner ==>
         owner[p] in users && (p == owner[p] || (owner[p] in jvm && Names(jvm[owner[p]], p)))
  }

  /** No session entry names a closed backend, and none is shared. */
  ghost predicate JvmLive(users: set<int>, owner: map<int, int>, jvm: map<int, Jvm>) {
    forall u :: u in jvm ==>
      && u in users
      && (forall p :: Names(jvm[u], p) ==> p in owner && owner[p] == u && p != u)
      && (jvm[u].javaPd >= 0 ==> jvm[u].javaPd != jvm[u].nativePd)
  }

  ghost predicate IsNative(owner: map<int, int>, jvm: map<int, Jvm>, p: int) {
    p in owner && if owner[p] in jvm then jvm[owner[p]].nativePd == p else true
  }

  ghost predicate IsJava(owner: map<int, int>, jvm: map<int, Jvm>, p: int) {
    p in owner && owner[p] in jvm && jvm[owner[p]].javaPd == p
  }

  /** Probes and Java sessions exist exactly for the live backends of their kind. */
  ghost predicate Backends(owner: map<int, int>, jvm: map<int, Jvm>, probes: set<int>, javaSessions: set<int>) {
    && (forall p :: p in probes <==> IsNative(owner, jvm, p))
    && forall p :: p in javaSessions <==> IsJava(owner, jvm, p)
  }

  /** The trace lock admits one kernel backend, and it has one entry: at its user session, or its own. */
  ghost predicate KernelLive(users: set<int>, kernel: map<int, Kern>, kernelSessions: set<int>) {
    && (forall k :: k in kernel ==>
          kernel[k].kernelPd in kernelSessions && if kernel[k].kernelOnly then k == kernel[k].kernelPd else k in users)
    && (forall k, l :: k in kernel && l in kernel ==> k == l)
    && (forall a, b :: a in kernelSessions && b in kernelSessions ==> a == b)
    && (kernel.Keys == {} ==> kernelSessions == {})
  }

  ghost predicate KernelLedger(next: nat, sessions: set<int>, ever: set<int>, closed: multiset<int>) {
    && (forall k :: k in ever ==> 1 <= k < next)
    && sessions <= ever && next >= 1
    && forall k :: closed[k] == if k in ever && k !in sessions then 1 else 0
  }

  /** `o` is `owner` with a JVM session of handle `pd` added. */
  ghost predicate Grown(owner: map<int, int>, o: map<int, int>, pd: int, java: int, native: int) {
    && (forall p :: p in o <==> p in owner || p == pd || p == java || (p == native && native >= 0))
    && forall p :: p in o ==> o[p] == if p in owner then owner[p] else pd
  }

  ghost predicate Apart(owner: map<int, int>, pd: int, java: int, native: int) {
    && pd !in owner && java !in owner && native !in owner && pd != java && pd != native && java != native
    && pd >= 0 && java >= 0
  }

  lemma AddOwned(users: set<int>, owner: map<int, int>, jvm: map<int, Jvm>, o: map<int, int>, pd: int, java: int,
                 native: int)
    requires Owned(users, owner, jvm) && JvmLive(users, owner, jvm)
    requires Apart(owner, pd, java, native) && Grown(owner, o, pd, java, native)
    ensures Owned(users + {pd}, o, jvm[pd := Jvm(java, native)])
  {
  }

  lemma AddLive(users: set<int>, owner: map<int, int>, jvm: map<int, Jvm>, o: map<int, int>, pd: int, java: int,
                native: int)
    requires Owned(users, owner, jvm) && JvmLive(users, owner, jvm)
    requires Apart(owner, pd, java, native) && Grown(owner, o, pd, java, native)
    ensures JvmLive(users + {pd}, o, jvm[pd := Jvm(java, native)])
  {
  }

  lemma AddBackends(users: set<int>, owner: map<int, int>, jvm: map<int, Jvm>, probes: set<int>, javas: set<int>,
                    o: map<int, int>, pd: int, java: int, native: int)
    requires Owned(users, owner, jvm) && Backends(owner, jvm, probes, javas)
    requires Apart(owner, pd, java, native) && Grown(owner, o, pd, java, native)
    ensures Backends(o, jvm[pd := Jvm(java, native)], if native >= 0 then probes + {native} else probes, javas + {java})
  {
    forall p
      ensures IsNative(o, jvm[pd := Jvm(java, native)], p) <==> IsNative(owner, jvm, p) || (p == native && native >= 0)
      ensures IsJava(o, jvm[pd := Jvm(java, native)], p) <==> IsJava(owner, jvm, p) || p == java
    {
    }
  }

  // ----- Closing a session, and losing the native backend of one -----

  /** `o` is `owner` without the descriptors of session `pd`. */
  ghost predicate Shrunk(owner: map<int, int>, o: map<int, int>, pd: int) {
    && (forall p :: p in o <==> p in owner && owner[p] != pd)
    && forall p :: p in o ==> o[p] == owner[p]
  }

  lemma DropOwned(users: set<int>, owner: map<int, int>, jvm: map<int, Jvm>, o: map<int, int>, pd: int)
    requires Owned(users, owner, jvm) && JvmLive(users, owner, jvm) && Shrunk(owner, o, pd)
    ensures Owned(users - {pd}, o, jvm - {pd}) && JvmLive(users - {pd}, o, jvm - {pd})
  {
  }

  lemma DropJvm(users: set<int>, owner: map<int, int>, jvm: map<int, Jvm>, probes: set<int>, javas: set<int>,
                o: map<int, int>, pd: int)
    requires Owned(users, owner, jvm) && JvmLive(users, owner, jvm) && Backends(owner, jvm, probes, javas)
    requires Shrunk(owner, o, pd) && pd in jvm && forall p :: p in owner ==> p >= 1
    ensures Backends(o, jvm - {pd}, probes - Live(jvm[pd].nativePd), javas - Live(jvm[pd].javaPd))
  {
    assert jvm[pd].nativePd >= 0 ==> Names(jvm[pd], jvm[pd].nativePd);
    assert jvm[pd].javaPd >= 0 ==> Names(jvm[pd], jvm[pd].javaPd);
    forall p
      ensures IsNative(o, jvm - {pd}, p) <==> IsNative(owner, jvm, p) && p !in Live(jvm[pd].nativePd)
      ensures IsJava(o, jvm - {pd}, p) <==> IsJava(owner, jvm, p) && p !in Live(jvm[pd].javaPd)
    {
    }
    hide IsNative, IsJava, Owned, JvmLive, Shrunk;
  }

  lemma DropPlain(users: set<int>, owner: map<int, int>, jvm: map<int, Jvm>, probes: set<int>, javas: set<int>,
                  o: map<int, int>, pd: int)
    requires Owned(users, owner, jvm) && JvmLive(users, owner, jvm) && Backends(owner, jvm, probes, javas)
    requires Shrunk(owner, o, pd) && pd in users && pd !in jvm
    ensures Backends(o, jvm - {pd}, probes - {pd}, javas)
  {
    forall p
      ensures IsNative(o, jvm - {pd}, p) <==> IsNative(owner, jvm, p) && p != pd
      ensures IsJava(o, jvm - {pd}, p) <==> IsJava(owner, jvm, p)
    {
    }
  }

  /** The PmuList descriptors of user session `pd`. */
  function Members(jvm: map<int, Jvm>, pd: int): set<int> {
    {pd} + if pd in jvm then Live(jvm[pd].javaPd) + Live(jvm[pd].nativePd) else {}
  }

  function Live(pd: int): set<int> {
    if pd >= 0 then {pd} else {}
  }

  lemma MembersAreOwned(users: set<int>, maxPd: nat, owner: map<int, int>, closed: multiset<int>, jvm: map<int, Jvm>,
                        pd: int)
    requires PmuLedger(maxPd, owner, closed) && Owned(users, owner, jvm) && JvmLive(users, owner, jvm) && pd in users
    ensures Members(jvm, pd) <= owner.Keys && Shrunk(owner, owner - Members(jvm, pd), pd) && pd >= 1
    ensures pd in jvm ==> ThreeDiffer(jvm[pd], pd) && jvm[pd].nativePd !in jvm
    ensures forall p :: p in owner ==> p >= 1
  {
    if pd in jvm {
      assert jvm[pd].nativePd >= 0 ==> Names(jvm[pd], jvm[pd].nativePd);
      assert jvm[pd].javaPd >= 0 ==> Names(jvm[pd], jvm[pd].javaPd);
    }
  }

  predicate ThreeDiffer(s: Jvm, pd: int) {
    s.javaPd != pd && s.nativePd != pd && (s.javaPd >= 0 ==> s.javaPd != s.nativePd)
  }

  lemma ThreeApart(s: Jvm, pd: int)
    requires ThreeDiffer(s, pd)
    ensures multiset({pd} + Live(s.javaPd) + Live(s.nativePd))
         == multiset(Live(s.javaPd)) + multiset(Live(s.nativePd)) + multiset{pd}
  {
  }

  lemma ThreeDropped(owner: map<int, int>, jvm: map<int, Jvm>, pd: int)
    requires pd in jvm && ThreeDiffer(jvm[pd], pd) && pd >= 0 && jvm[pd].nativePd !in jvm
    requires Members(jvm, pd) <= owner.Keys
    ensures Members(jvm, pd) == {pd} + Live(jvm[pd].javaPd) + Live(jvm[pd].nativePd)
    ensures owner - Live(jvm[pd].javaPd) - Live(jvm[pd].nativePd) - {pd} == owner - Members(jvm, pd)
    ensures pd in owner - Live(jvm[pd].javaPd) - Live(jvm[pd].nativePd)
    ensures jvm[pd].javaPd >= 0 ==> jvm[pd].javaPd in owner
    ensures jvm[pd].nativePd >= 0 ==> jvm[pd].nativePd in owner - Live(jvm[pd].javaPd)
    ensures jvm - Live(jvm[pd].nativePd) == jvm
    ensures jvm - {pd} - {pd} == jvm - {pd}
  {
  }

  lemma KernelShrink(users: set<int>, kernel: map<int, Kern>, kernelSessions: set<int>, pd: int)
    requires KernelLive(users, kernel, kernelSessions) && (pd in kernel ==> kernel[pd].kernelOnly)
    ensures KernelLive(users - {pd}, kernel, kernelSessions)
  {
  }

  lemma LoseOwned(users: set<int>, owner: map<int, int>, jvm: map<int, Jvm>, pd: int)
    requires Owned(users, owner, jvm) && JvmLive(users, owner, jvm) && pd in jvm && jvm[pd].nativePd >= 0
    ensures var o, s := owner - {jvm[pd].nativePd}, jvm[pd := jvm[pd].(nativePd := NONE)];
            Owned(users, o, s) && JvmLive(users, o, s)
  {
    assert Names(jvm[pd], jvm[pd].nativePd);
  }

  lemma LoseBackends(users: set<int>, owner: map<int, int>, jvm: map<int, Jvm>, probes: set<int>, javas: set<int>,
                     pd: int)
    requires Owned(users, owner, jvm) && JvmLive(users, owner, jvm) && Backends(owner, jvm, probes, javas)
    requires pd in jvm && jvm[pd].nativePd >= 0 && forall p :: p in owner ==> p >= 1
    ensures Backends(owner - {jvm[pd].nativePd}, jvm[pd := jvm[pd].(nativePd := NONE)],
                     probes - {jvm[pd].nativePd}, javas)
  {
    var o, s := owner - {jvm[pd].nativePd}, jvm[pd := jvm[pd].(nativePd := NONE)];
    assert Names(jvm[pd], jvm[pd].nativePd);
    forall p
      ensures IsNative(o, s, p) <==> IsNative(owner, jvm, p) && p != jvm[pd].nativePd
      ensures IsJava(o, s, p) <==> IsJava(owner, jvm, p)
    {
    }
  }

  /** Live user sessions and live kernel-only sessions. */
  ghost function HandlesOf(users: set<int>, kernel: map<int, Kern>): multiset<int> {
    multiset(users) + multiset(KernelOnly(kernel))
  }

  ghost function KernelOnly(kernel: map<int, Kern>): set<int> {
    set k | k in kernel && kernel[k].kernelOnly
  }

  lemma AddNone(users: set<int>, handles: multiset<int>)
    ensures users + Live(NONE) == users && handles + multiset(Live(NONE)) == handles
  {
  }

  lemma AddSome(pd: int)
    ensures pd >= 0 ==> Live(pd) == {pd}
  {
  }

  lemma HandlesUser(users: set<int>, kernel: map<int, Kern>, pd: int)
    requires pd !in users
    ensures HandlesOf(users + Live(pd), kernel) == HandlesOf(users, kernel) + multiset(Live(pd))
    ensures users + Live(pd) - {pd} == users
  {
    if pd < 0 {
      assert users + Live(pd) == users;
    }
  }

  lemma HandlesDrop(users: set<int>, kernel: map<int, Kern>, pd: int)
    requires pd in users
    ensures HandlesOf(users - {pd}, kernel) == HandlesOf(users, kernel) - multiset{pd}
  {
  }

  lemma HandleIn(users: set<int>, kernel: map<int, Kern>, pd: int)
    requires pd in HandlesOf(users, kernel) && pd !in kernel
    ensures pd in users
  {
    assert pd !in KernelOnly(kernel);
  }

  lemma KernelEmpty(users: set<int>, kernel: map<int, Kern>, kernelSessions: set<int>)
    requires KernelLive(users, kernel, kernelSessions)
    ensures kernel.Keys == {} <==> kernelSessions == {}
  {
    if k :| k in kernel {
      assert kernel[k].kernelPd in kernelSessions;
    } else {
      var none: map<int, Kern> := map[];
      assert forall k :: k in kernel <==> k in none;
      assert kernel == none;
    }
  }

  lemma KernelAttached(users: set<int>, pd: int, k: Kern)
    requires if k.kernelOnly then pd == k.kernelPd else pd in users
    ensures KernelLive(users, map[pd := k], {k.kernelPd})
  {
    assert pd in map[pd := k].Keys;
  }

  lemma HandlesKernel(users: set<int>, kernel: map<int, Kern>, pd: int, k: Kern)
    requires kernel.Keys == {}
    ensures HandlesOf(users, kernel[pd := k]) == multiset(users) + if k.kernelOnly then multiset{pd} else multiset{}
    ensures HandlesOf(users, kernel) == multiset(users)
  {
    assert KernelOnly(kernel) == {};
    assert KernelOnly(kernel[pd := k]) == if k.kernelOnly then {pd} else {};
  }

  lemma ShrunkUnique(owner: map<int, int>, a: map<int, int>, b: map<int, int>, pd: int)
    requires Shrunk(owner, a, pd) && Shrunk(owner, b, pd)
    ensures a == b
  {
    assert forall p :: p in a ==> p in b && a[p] == b[p];
    assert forall p :: p in b ==> p in a;
  }

  lemma GrownIsShrunk(users: set<int>, owner: map<int, int>, jvm: map<int, Jvm>, o: map<int, int>, pd: int, java: int,
                      native: int)
    requires Owned(users, owner, jvm) && Grown(owner, o, pd, java, native) && pd !in users
    ensures Shrunk(o, owner, pd)
  {
  }

  lemma GrownPlain(users: set<int>, owner: map<int, int>, jvm: map<int, Jvm>, pd: int)
    requires Owned(users, owner, jvm) && pd !in users && pd !in owner
    ensures Shrunk(owner[pd := pd], owner, pd)
  {
  }

  lemma AddPlain(users: set<int>, owner: map<int, int>, jvm: map<int, Jvm>, probes: set<int>, javas: set<int>, pd: int)
    requires Owned(users, owner, jvm) && JvmLive(users, owner, jvm) && Backends(owner, jvm, probes, javas)
    requires pd !in owner
    ensures var us, o := users + {pd}, owner[pd := pd];
            Owned(us, o, jvm) && JvmLive(us, o, jvm) && Backends(o, jvm, probes + {pd}, javas)
  {
    forall p
      ensures IsNative(owner[pd := pd], jvm, p) <==> IsNative(owner, jvm, p) || p == pd
      ensures IsJava(owner[pd := pd], jvm, p) <==> IsJava(owner, jvm, p)
    {
    }
  }

  lemma PutDrop(owner: map<int, int>, jvm: map<int, Jvm>, pd: int)
    requires pd !in owner && pd !in jvm
    ensures owner[pd := pd] - {pd} == owner && jvm - {pd} == jvm
  {
  }

  lemma TakenBack(owner: map<int, int>, jvm: map<int, Jvm>, probes: set<int>, pd: int, native: int)
    requires native !in jvm && native !in probes && (native >= 0 ==> native !in owner)
    ensures (if native >= 0 then owner[native := pd] else owner) - Live(native) == owner
    ensures (if native >= 0 then probes + {native} else probes) - Live(native) == probes
    ensures jvm - Live(native) == jvm
  {
  }

  lemma GrownByBackends(owner: map<int, int>, pd: int, java: int, native: int)
    requires pd in owner && owner[pd] == pd && java !in owner && (native >= 0 ==> native !in owner)
    ensures Grown(owner - {pd}, (if native >= 0 then owner[native := pd] else owner)[java := pd], pd, java, native)
  {
  }

  lemma FreshInLedger(maxPd: nat, owner: map<int, int>, closed: multiset<int>)
    requires PmuLedger(maxPd, owner, closed)
    ensures forall p :: p > maxPd ==> p !in owner
  {
  }

  lemma LedgerOpen(maxPd: nat, owner: map<int, int>, closed: multiset<int>, s: int)
    requires PmuLedger(maxPd, owner, closed)
    ensures PmuLedger(maxPd + 1, owner[maxPd + 1 := s], closed)
  {
  }

  lemma KernelGrow(users: set<int>, kernel: map<int, Kern>, kernelSessions: set<int>, pd: int)
    requires KernelLive(users, kernel, kernelSessions)
    ensures KernelLive(users + {pd}, kernel, kernelSessions)
  {
  }

  // ----- What an open opens -----

  predicate HasUser(req: Request) {
    req.user || req.java
  }

  /** The back ends a user session cannot do without open. */
  predicate UserOpens(req: Request, env: Env) {
    if req.java then env.parentPd && env.java == JavaOpens else env.native == NativeOpens
  }

  /** A user session is opened and kept: with a kernel part it must also be possible to prepare Java. */
  predicate OpensUser(req: Request, env: Env) {
    HasUser(req) && UserOpens(req, env) && (req.kernel && req.java ==> env.prepared)
  }

  /** A kernel session is opened: asked for, not after a failed user session, and with the trace lock free. */
  predicate OpensKernel(req: Request, env: Env, kernel: map<int, Kern>) {
    req.kernel && env.kernel == KernelOpens && kernel.Keys == {} && (HasUser(req) ==> OpensUser(req, env))
  }

  /** User session `pd` was added, a JVM session with or without its native part or a native one, and no other
      session changed. */
  ghost predicate SessionAdded(req: Request, env: Env, pd: int, owner: map<int, int>, jvm: map<int, Jvm>,
                               owner1: map<int, int>, jvm1: map<int, Jvm>) {
    && Shrunk(owner1, owner, pd) && jvm1 - {pd} == jvm && (pd in jvm1 <==> req.java)
    && (req.java ==>
          && jvm1[pd].javaPd >= 0
          && (jvm1[pd].nativePd >= 0 <==> req.nativeSymbols && env.native == NativeOpens))
  }

  // ----- What a call may close -----

  predicate UserOk(jvm: map<int, Jvm>, pd: int, answers: Answers) {
    if pd in jvm then answers.java || jvm[pd].javaPd < 0 else answers.native
  }

  /** The native backend of JVM session `pd` fails. */
  predicate Loses(jvm: map<int, Jvm>, pd: int, answers: Answers) {
    pd in jvm && jvm[pd].nativePd >= 0 && !answers.native
  }

  /** The kernel backend of user session `pd` fails. */
  predicate KernelFails(kernel: map<int, Kern>, pd: int, answers: Answers) {
    pd in kernel && !kernel[pd].kernelOnly && !answers.kernel
  }

  ghost predicate CallOk(jvm: map<int, Jvm>, kernel: map<int, Kern>, pd: int, answers: Answers) {
    if pd in KernelOnly(kernel) then answers.kernel else UserOk(jvm, pd, answers)
  }

  /** Either session `pd` loses exactly its native backend, or nothing of any user session changes. */
  ghost predicate NativeStep(jvm: map<int, Jvm>, owner: map<int, int>, closed: multiset<int>,
                             jvm1: map<int, Jvm>, owner1: map<int, int>, closed1: multiset<int>, pd: int, lost: bool) {
    if lost && pd in jvm then
      var native := jvm[pd].nativePd;
      && closed1 == closed + multiset{native} && owner1 == owner - {native}
      && jvm1 == jvm[pd := jvm[pd].(nativePd := NONE)]
    else
      closed1 == closed && owner1 == owner && jvm1 == jvm
  }

  ghost predicate KernelStep(kernel: map<int, Kern>, closed: multiset<int>,
                             kernel1: map<int, Kern>, closed1: multiset<int>, pd: int, lost: bool) {
    if lost && pd in kernel then
      closed1 == closed + multiset{kernel[pd].kernelPd} && kernel1 == kernel - {pd}
    else
      closed1 == closed && kernel1 == kernel
  }

  class Sessions {
    var maxPd: nat                       // PmuList
    var probes: set<int>                 // ProbeRegistrar: descriptors with probes installed
    var javaSessions: set<int>           // JavaTraceManager
    var nextKernelPd: nat                // KernelTraceManager
    var kernelSessions: set<int>
    var jvm: map<int, Jvm>               // g_jvmTraceSessions
    var kernel: map<int, Kern>           // g_kernelTraceSessions

    ghost var users: set<int>            // handles of live user sessions
    ghost var owner: map<int, int>       // live PmuList descriptors and the session each belongs to
    ghost var closed: multiset<int>      // PmuList descriptors, once per close
    ghost var kernelOpened: set<int>
    ghost var kernelClosed: multiset<int>

    /** What every call keeps. */
    ghost predicate Valid()
      reads this
    {
      && PmuLedger(maxPd, owner, closed) && Owned(users, owner, jvm) && JvmLive(users, owner, jvm)
      && Backends(owner, jvm, probes, javaSessions)
      && KernelLive(users, kernel, kernelSessions)
      && KernelLedger(nextKernelPd, kernelSessions, kernelOpened, kernelClosed)
    }

    /** The handles the client holds. */
    ghost function Handles(): multiset<int>
      reads this
    {
      HandlesOf(users, kernel)
    }

    ghost function Now(): Moment
      reads this
    {
      Moment(users, owner, closed, jvm, kernel, kernelClosed)
    }

    constructor ()
      ensures Valid() && Handles() == multiset{} && maxPd == 0 && nextKernelPd == 1
      ensures owner == map[] && kernelOpened == {} && jvm == map[] && kernel == map[] && users == {}
    {
      maxPd, probes, javaSessions, nextKernelPd, kernelSessions := 0, {}, {}, 1, {};
      jvm, kernel := map[], map[];
      users, owner, closed, kernelOpened, kernelClosed := {}, map[], multiset{}, {}, multiset{};
    }

    // ----- The managers and the guards -----

    lemma FreshPd()
      requires Valid()
      ensures forall p :: p > maxPd ==> p !in owner && p !in jvm && p !in users && p !in probes && p !in javaSessions
      ensures NONE !in owner && NONE !in jvm && NONE !in probes
    {
    }

    /** ~UTraceResourceGuard without commit. */
    method Release(pd: int, probesInstalled: bool)
      requires pd in owner && PmuLedger(maxPd, owner, closed)
      modifies `closed, `owner, `probes, `jvm
      ensures PmuLedger(maxPd, owner, closed)
      ensures closed == old(closed) + multiset{pd} && owner == old(owner) - {pd} && jvm == old(jvm) - {pd}
      ensures probes == if probesInstalled then old(probes) - {pd} else old(probes)
    {
      closed, owner := closed + multiset{pd}, owner - {pd};
      if probesInstalled {
        probes := probes - {pd};
      }
      jvm := jvm - {pd};
    }

    /** OpenNativeBackend; `session` is the handle it will belong to, its own if `session` is NONE. */
    method OpenNative(attempt: NativeTry, ghost session: int) returns (pd: int)
      requires PmuLedger(maxPd, owner, closed) && maxPd + 1 !in jvm && maxPd + 1 !in probes
      modifies `maxPd, `closed, `owner, `probes, `jvm
      ensures PmuLedger(maxPd, owner, closed)
      ensures maxPd == if attempt == NoPoints then old(maxPd) else old(maxPd) + 1
      ensures jvm == old(jvm)
      ensures attempt == NativeOpens ==>
                && pd == maxPd && closed == old(closed) && probes == old(probes) + {pd}
                && owner == old(owner)[pd := if session == NONE then pd else session]
      ensures attempt != NativeOpens ==>
                && pd == NONE && probes == old(probes) && owner == old(owner)
                && closed == old(closed) + if attempt == NoPoints then multiset{} else multiset{maxPd}
    {
      if attempt == NoPoints {
        return NONE;
      }
      maxPd := maxPd + 1;
      pd := maxPd;
      owner := owner[pd := if session == NONE then pd else session];
      if attempt == InstallFails {
        Release(pd, false);
        return NONE;
      }
      probes := probes + {pd};
      if attempt == RegisterFails {
        Release(pd, true);
        return NONE;
      }
    }

    /** OpenJavaBackend. */
    method OpenJava(attempt: JavaTry, ghost session: int) returns (pd: int)
      requires PmuLedger(maxPd, owner, closed)
      modifies `maxPd, `closed, `owner, `javaSessions
      ensures PmuLedger(maxPd, owner, closed)
      ensures maxPd == if attempt == NoPid then old(maxPd) else old(maxPd) + 1
      ensures attempt == JavaOpens ==>
                && pd == maxPd && closed == old(closed) && javaSessions == old(javaSessions) + {pd}
                && owner == old(owner)[pd := session]
      ensures attempt != JavaOpens ==>
                && pd == NONE && javaSessions == old(javaSessions) && owner == old(owner)
                && closed == old(closed) + if attempt == NoPid then multiset{} else multiset{maxPd}
    {
      if attempt == NoPid {
        return NONE;
      }
      maxPd := maxPd + 1;
      pd := maxPd;
      if attempt == AttachFails {
        closed := closed + multiset{pd};
        return NONE;
      }
      owner, javaSessions := owner[pd := session], javaSessions + {pd};
    }

    /** CloseNativeBackendPd. */
    method CloseNative(pd: int)
      requires PmuLedger(maxPd, owner, closed) && (pd >= 0 ==> pd in owner)
      modifies `closed, `owner, `probes, `jvm
      ensures PmuLedger(maxPd, owner, closed)
      ensures closed == old(closed) + multiset(Live(pd)) && owner == old(owner) - Live(pd)
      ensures probes == old(probes) - Live(pd) && jvm == old(jvm) - Live(pd)
    {
      if pd >= 0 {
        Release(pd, true);
      }
    }

    /** CloseJavaBackendPd. */
    method CloseJava(pd: int)
      requires PmuLedger(maxPd, owner, closed) && (pd >= 0 ==> pd in owner)
      modifies `closed, `owner, `javaSessions
      ensures PmuLedger(maxPd, owner, closed)
      ensures closed == old(closed) + multiset(Live(pd)) && owner == old(owner) - Live(pd)
      ensures javaSessions == old(javaSessions) - Live(pd)
    {
      if pd >= 0 {
        javaSessions := javaSessions - {pd};
        closed, owner := closed + multiset{pd}, owner - {pd};
      }
    }

    /** The backends of a JVM session whose parent descriptor is `pd`; a Java failure takes the native one back. */
    method OpenJvmBackends(req: Request, env: Env, pd: int) returns (java: int, native: int)
      requires PmuLedger(maxPd, owner, closed) && pd >= 0 && pd in owner && owner[pd] == pd
      requires forall p :: p > maxPd || p == NONE ==> p !in jvm && p !in probes
      modifies `maxPd, `closed, `owner, `probes, `javaSessions, `jvm
      ensures PmuLedger(maxPd, owner, closed) && jvm == old(jvm) && maxPd >= old(maxPd)
      ensures java == NONE || java > old(maxPd)
      ensures java != NONE <==> env.java == JavaOpens
      ensures java == NONE ==> owner == old(owner) && probes == old(probes) && javaSessions == old(javaSessions)
      ensures native == NONE || native > old(maxPd)
      ensures java != NONE ==>
                && (native != NONE <==> req.nativeSymbols && env.native == NativeOpens) && java != native
                && Grown(old(owner) - {pd}, owner, pd, java, native) && javaSessions == old(javaSessions) + {java}
                && probes == if native != NONE then old(probes) + {native} else old(probes)
    {
      hide PmuLedger, Grown;
      FreshInLedger(maxPd, owner, closed);
      native := NONE;
      if req.nativeSymbols {
        native := OpenNative(env.native, pd);
      }
      ghost var o := owner;
      assert o == if native >= 0 then old(owner)[native := pd] else old(owner);
      java := OpenJava(env.java, pd);
      if java < 0 {
        TakenBack(old(owner), jvm, old(probes), pd, native);
        CloseNative(native);
      } else {
        GrownByBackends(old(owner), pd, java, native);
        assert owner == o[java := pd];
      }
    }

    /** UTraceOpenJvm. */
    method OpenJvm(req: Request, env: Env) returns (pd: int)
      requires Valid()
      modifies `maxPd, `closed, `owner, `probes, `javaSessions, `jvm, `users
      ensures Valid() && (pd == NONE || pd > old(maxPd))
      ensures pd != NONE <==> env.parentPd && env.java == JavaOpens
      ensures pd == NONE ==> users == old(users) && owner == old(owner) && jvm == old(jvm)
      ensures pd != NONE ==>
                && users == old(users) + {pd} && pd in jvm && jvm == old(jvm)[pd := jvm[pd]]
                && jvm[pd].javaPd >= 0 && (jvm[pd].nativePd >= 0 <==> req.nativeSymbols && env.native == NativeOpens)
                && Grown(old(owner), owner, pd, jvm[pd].javaPd, jvm[pd].nativePd)
    {
      hide PmuLedger, Owned, JvmLive, Backends, KernelLive, KernelLedger, Grown, Members, Live;
      if !env.parentPd {
        return NONE;
      }
      FreshPd();
      ghost var o := owner;
      LedgerOpen(maxPd, owner, closed, maxPd + 1);
      maxPd := maxPd + 1;
      pd := maxPd;
      owner := owner[pd := pd];
      PutDrop(o, jvm, pd);
      var java, native := OpenJvmBackends(req, env, pd);
      if java < 0 {
        Release(pd, false);
        return NONE;
      }
      CommitJvm(pd, java, native, o, old(probes), old(javaSessions));
    }

    /** The session of a JVM trace is recorded once its backends are open. */
    method CommitJvm(pd: int, java: int, native: int, ghost o: map<int, int>, ghost probes0: set<int>,
                     ghost javas0: set<int>)
      requires PmuLedger(maxPd, owner, closed) && Owned(users, o, jvm) && JvmLive(users, o, jvm)
      requires Backends(o, jvm, probes0, javas0) && KernelLive(users, kernel, kernelSessions)
      requires KernelLedger(nextKernelPd, kernelSessions, kernelOpened, kernelClosed)
      requires Apart(o, pd, java, native) && Grown(o, owner, pd, java, native)
      requires probes == (if native >= 0 then probes0 + {native} else probes0) && javaSessions == javas0 + {java}
      modifies `jvm, `users
      ensures Valid() && jvm == old(jvm)[pd := Jvm(java, native)] && users == old(users) + {pd}
    {
      hide PmuLedger, Owned, JvmLive, Backends, KernelLive, KernelLedger, Grown, Apart;
      AddOwned(users, o, jvm, owner, pd, java, native);
      AddLive(users, o, jvm, owner, pd, java, native);
      AddBackends(users, o, jvm, probes0, javas0, owner, pd, java, native);
      KernelGrow(users, kernel, kernelSessions, pd);
      jvm, users := jvm[pd := Jvm(java, native)], users + {pd};
    }

    /** A trace without Java symbols: the native backend is the session. */
    method OpenPlain(attempt: NativeTry) returns (pd: int)
      requires Valid()
      modifies `maxPd, `closed, `owner, `probes, `jvm, `users
      ensures Valid() && (pd == NONE || pd > old(maxPd)) && jvm == old(jvm)
      ensures pd != NONE <==> attempt == NativeOpens
      ensures pd == NONE ==> users == old(users) && owner == old(owner)
      ensures pd != NONE ==> pd == old(maxPd) + 1 && users == old(users) + {pd} && owner == old(owner)[pd := pd]
    {
      FreshPd();
      pd := OpenNative(attempt, NONE);
      if pd != NONE {
        AddPlain(users, old(owner), jvm, old(probes), javaSessions, pd);
        KernelGrow(users, kernel, kernelSessions, pd);
        users := users + {pd};
      }
      hide PmuLedger, Owned, JvmLive, Backends, KernelLive, KernelLedger;
    }

    /** KernelTraceManager.Open: a live kernel session holds the trace lock, which a second open cannot take. */
    method OpenKernel(attempt: KernelTry) returns (pd: int)
      requires Valid()
      modifies `nextKernelPd, `kernelSessions, `kernelOpened
      ensures KernelLedger(nextKernelPd, kernelSessions, kernelOpened, kernelClosed)
      ensures old(nextKernelPd) >= 1
      ensures nextKernelPd == if attempt == EarlyFailure then old(nextKernelPd) else old(nextKernelPd) + 1
      ensures pd != NONE <==> attempt == KernelOpens && old(kernelSessions) == {}
      ensures pd == NONE ==> kernelSessions == old(kernelSessions) && kernelOpened == old(kernelOpened)
      ensures pd != NONE ==>
                pd == old(nextKernelPd) && kernelSessions == {pd} && kernelOpened == old(kernelOpened) + {pd}
    {
      if attempt == EarlyFailure {
        return NONE;
      }
      pd := nextKernelPd;
      nextKernelPd := nextKernelPd + 1;
      if attempt == LateFailure || kernelSessions != {} {
        return NONE;
      }
      kernelSessions, kernelOpened := kernelSessions + {pd}, kernelOpened + {pd};
    }

    /** Closes the kernel backend of entry `key` and erases the entry. */
    method CloseKernel(key: int)
      requires Valid() && key in kernel
      modifies `kernel, `kernelSessions, `kernelClosed
      ensures Valid() && kernel.Keys == {} && kernelSessions == {}
      ensures KernelStep(old(kernel), old(kernelClosed), kernel, kernelClosed, key, true)
      ensures Handles() == multiset(users)
      ensures old(Handles()) == multiset(users) + multiset(if old(kernel[key]).kernelOnly then {key} else {})
      ensures old(kernel[key]).kernelOnly || key in users
    {
      ghost var k := kernel;
      var pd := kernel[key].kernelPd;
      kernel := kernel - {key};
      kernelSessions := kernelSessions - {pd};
      kernelClosed := kernelClosed + multiset{pd};
      assert forall k :: k in old(kernel) ==> k == key;
      assert kernel.Keys == {};
      assert forall k :: k in old(kernelSessions) ==> k == pd;
      assert kernelSessions == {};
      assert KernelOnly(kernel) == {};
      assert KernelOnly(k) == if k[key].kernelOnly then {key} else {};
    }

    /** The part of CloseUserTrace that closes a JVM session. */
    method CloseJvm(pd: int)
      requires PmuLedger(maxPd, owner, closed) && pd in jvm && pd >= 0 && Members(jvm, pd) <= owner.Keys
      requires ThreeDiffer(jvm[pd], pd) && jvm[pd].nativePd !in jvm
      modifies `closed, `owner, `probes, `javaSessions, `jvm
      ensures PmuLedger(maxPd, owner, closed) && owner == old(owner) - Members(old(jvm), pd) && jvm == old(jvm) - {pd}
      ensures closed == old(closed) + multiset(Members(old(jvm), pd))
      ensures probes == old(probes) - Live(old(jvm[pd]).nativePd)
      ensures javaSessions == old(javaSessions) - Live(old(jvm[pd]).javaPd)
    {
      hide PmuLedger, ThreeDiffer, Live, Members;
      var s := jvm[pd];
      ThreeApart(s, pd);
      ThreeDropped(owner, jvm, pd);
      CloseJava(s.javaPd);
      CloseNative(s.nativePd);
      jvm := jvm - {pd};
      Release(pd, false);
    }

    /** CloseUserTrace. */
    method CloseUser(pd: int)
      requires Valid() && pd in users && (pd in kernel ==> kernel[pd].kernelOnly)
      modifies `closed, `owner, `probes, `javaSessions, `jvm, `users
      ensures Valid() && users == old(users) - {pd} && jvm == old(jvm) - {pd} && Shrunk(old(owner), owner, pd)
      ensures closed == old(closed) + multiset(Members(old(jvm), pd))
      ensures Handles() == old(Handles()) - multiset{pd}
    {
      hide PmuLedger, Owned, JvmLive, Backends, KernelLive, KernelLedger, Shrunk, ThreeDiffer, HandlesOf,
           Members, Live;
      HandlesDrop(users, kernel, pd);
      MembersAreOwned(users, maxPd, owner, closed, jvm, pd);
      DropOwned(users, owner, jvm, owner - Members(jvm, pd), pd);
      KernelShrink(users, kernel, kernelSessions, pd);
      if pd in jvm {
        DropJvm(users, owner, jvm, probes, javaSessions, owner - Members(jvm, pd), pd);
        CloseJvm(pd);
      } else {
        PlainMembers(jvm, pd);
        DropPlain(users, owner, jvm, probes, javaSessions, owner - {pd}, pd);
        Release(pd, true);
      }
      users := users - {pd};
    }

    lemma PlainMembers(jvm: map<int, Jvm>, pd: int)
      requires pd !in jvm
      ensures Members(jvm, pd) == {pd}
    {
    }

    /** The user part of UTraceOpen: a JVM session when Java symbols are traced, else a native one. */
    method OpenUser(req: Request, env: Env) returns (pd: int)
      requires Valid()
      modifies `maxPd, `closed, `owner, `probes, `javaSessions, `jvm, `users
      ensures Valid() && (pd == NONE || pd > old(maxPd)) && users == old(users) + Live(pd) && pd !in old(users)
      ensures pd != NONE <==> UserOpens(req, env)
      ensures pd == NONE ==> owner == old(owner) && jvm == old(jvm)
      ensures pd != NONE ==> SessionAdded(req, env, pd, old(owner), old(jvm), owner, jvm)
      ensures pd in kernel ==> kernel[pd].kernelOnly
      ensures pd != NONE && !req.java ==> pd == old(maxPd) + 1
    {
      hide PmuLedger, Owned, JvmLive, Backends, KernelLive, KernelLedger, Grown, Shrunk;
      FreshPd();
      FreshKernel();
      ghost var us, o, j := users, owner, jvm;
      if req.java {
        pd := OpenJvm(req, env);
        if pd != NONE {
          assert jvm - {pd} == j;
          GrownIsShrunk(us, o, j, owner, pd, jvm[pd].javaPd, jvm[pd].nativePd);
        }
      } else {
        pd := OpenPlain(env.native);
        if pd != NONE {
          assert jvm - {pd} == j;
          GrownPlain(us, o, j, pd);
        }
      }
    }

    lemma FreshKernel()
      requires Valid()
      ensures forall p :: p > maxPd && p in kernel ==> kernel[p].kernelOnly
      ensures NONE !in users && NONE !in kernel
    {
    }

    /** The kernel part of UTraceOpen. */
    method AttachKernel(attempt: KernelTry, userPd: int) returns (pd: int)
      requires Valid() && (userPd == NONE || (userPd >= 1 && userPd in users))
      modifies `nextKernelPd, `kernelSessions, `kernelOpened, `kernel
      ensures Valid() && (pd == NONE || pd >= 1)
      ensures old(kernel).Keys != {} || attempt != KernelOpens ==> pd == userPd && kernel == old(kernel)
      ensures old(kernel).Keys == {} && attempt == KernelOpens ==>
                && pd == (if userPd == NONE then old(nextKernelPd) else userPd)
                && kernel == old(kernel)[pd := Kern(old(nextKernelPd), userPd == NONE)]
      ensures Handles() == if userPd == NONE then old(Handles()) + multiset(Live(pd)) else old(Handles())
    {
      hide PmuLedger, Owned, JvmLive, Backends, KernelLive, KernelLedger, HandlesOf;
      KernelEmpty(users, kernel, kernelSessions);
      if kernel.Keys == {} {
        HandlesKernel(users, kernel, if userPd == NONE then nextKernelPd else userPd,
                      Kern(nextKernelPd, userPd == NONE));
      }
      var kernelPd := OpenKernel(attempt);
      if kernelPd < 0 {
        return userPd;
      }
      pd := if userPd >= 0 then userPd else kernelPd;
      KernelAttached(users, pd, Kern(kernelPd, userPd < 0));
      assert kernel[pd := Kern(kernelPd, userPd < 0)] == map[pd := Kern(kernelPd, userPd < 0)];
      kernel := kernel[pd := Kern(kernelPd, userPd < 0)];
    }

    /** UTraceOpen up to its kernel part: the user session, closed again if Java cannot be prepared for it. */
    method OpenPrepared(req: Request, env: Env) returns (ok: bool, pd: int)
      requires Valid()
      modifies `maxPd, `closed, `owner, `probes, `javaSessions, `jvm, `users
      ensures Valid() && (pd == NONE || pd >= 1) && pd !in old(users)
      ensures ok ==> HandlesOf(users, kernel) == HandlesOf(old(users), kernel) + multiset(Live(pd))
      ensures ok ==> users == old(users) + Live(pd)
      ensures ok <==> HasUser(req) ==> OpensUser(req, env)
      ensures ok ==> (pd != NONE <==> HasUser(req))
      ensures ok && pd != NONE ==> SessionAdded(req, env, pd, old(owner), old(jvm), owner, jvm)
      ensures ok && pd != NONE && !req.java ==> pd == old(maxPd) + 1
      ensures !HasUser(req) ==> maxPd == old(maxPd)
      ensures !ok || pd == NONE ==> users == old(users) && owner == old(owner) && jvm == old(jvm)
    {
      hide PmuLedger, Owned, JvmLive, Backends, KernelLedger, KernelLive, Shrunk, HandlesOf;
      FreshKernel();
      ghost var us, o := users, owner;
      pd := NONE;
      if HasUser(req) {
        pd := OpenUser(req, env);
        if pd < 0 {
          HandlesUser(us, kernel, pd);
          return false, pd;
        }
      }
      HandlesUser(us, kernel, pd);
      if req.kernel && req.java && jvm[pd].javaPd >= 0 && !env.prepared {
        ghost var during := owner;
        CloseUser(pd);
        ShrunkUnique(during, owner, o, pd);
        return false, pd;
      }
      return true, pd;
    }

    /** UTraceOpen: every failure gives back what it took; success is one more handle, with a user session, a kernel
        session, or both. */
    method Open(req: Request, env: Env) returns (pd: int)
      requires Valid()
      modifies this
      ensures Valid() && (pd == NONE || pd >= 1) && Handles() == old(Handles()) + multiset(Live(pd))
      ensures pd != NONE <==> OpensUser(req, env) || (!HasUser(req) && OpensKernel(req, env, old(kernel)))
      ensures users == if OpensUser(req, env) then old(users) + {pd} else old(users)
      ensures if OpensUser(req, env) then SessionAdded(req, env, pd, old(owner), old(jvm), owner, jvm)
              else owner == old(owner) && jvm == old(jvm)
      ensures kernel == if OpensKernel(req, env, old(kernel))
                        then old(kernel)[pd := Kern(old(nextKernelPd), !HasUser(req))] else old(kernel)
      ensures OpensUser(req, env) && !req.java ==> pd == old(maxPd) + 1
      ensures !HasUser(req) ==> maxPd == old(maxPd) && (pd == NONE || pd == old(nextKernelPd))
    {
      hide PmuLedger, Owned, JvmLive, Backends, KernelLedger, KernelLive, HandlesOf, SessionAdded, UserOpens, Live;
      AddNone(users, Handles());
      if !HasUser(req) && !req.kernel {
        return NONE;
      }
      var ok, userPd := OpenPrepared(req, env);
      if !ok {
        return NONE;
      }
      AddSome(userPd);
      if !req.kernel {
        return userPd;
      }
      pd := AttachKernel(env.kernel, userPd);
    }

    /** The native backend of a JVM session fails: it is closed and the session goes on without it. */
    method LoseNative(pd: int)
      requires Valid() && pd in jvm && jvm[pd].nativePd >= 0
      modifies `closed, `owner, `probes, `jvm
      ensures Valid() && closed == old(closed) + multiset{old(jvm[pd]).nativePd}
      ensures owner == old(owner) - {old(jvm[pd]).nativePd} && jvm == old(jvm)[pd := old(jvm[pd]).(nativePd := NONE)]
    {
      hide PmuLedger, Owned, JvmLive, Backends, KernelLedger, KernelLive;
      NativeIsLive(pd);
      LoseOwned(users, owner, jvm, pd);
      LoseBackends(users, owner, jvm, probes, javaSessions, pd);
      var native := jvm[pd].nativePd;
      jvm := jvm[pd := jvm[pd].(nativePd := NONE)];
      CloseNative(native);
      assert jvm == old(jvm)[pd := old(jvm[pd]).(nativePd := NONE)];
    }

    lemma NativeIsLive(pd: int)
      requires Valid() && pd in jvm && jvm[pd].nativePd >= 0
      ensures jvm[pd].nativePd in owner && jvm[pd].nativePd !in jvm && jvm[pd].nativePd != pd
      ensures forall p :: p in owner ==> p >= 1
    {
      assert Names(jvm[pd], jvm[pd].nativePd);
    }

    /** EnableUserTrace: the native backend first. */
    method EnableUser(pd: int, answers: Answers) returns (ok: bool)
      requires Valid()
      modifies `closed, `owner, `probes, `jvm
      ensures Valid() && ok == UserOk(old(jvm), pd, answers)
      ensures NativeStep(old(jvm), old(owner), old(closed), jvm, owner, closed, pd, Loses(old(jvm), pd, answers))
    {
      hide PmuLedger, Owned, JvmLive, Backends, KernelLedger, KernelLive;
      if pd in jvm {
        if jvm[pd].nativePd >= 0 && !answers.native {
          LoseNative(pd);
        }
        return answers.java || jvm[pd].javaPd < 0;
      }
      return answers.native;
    }

    /** DisableUserTrace: the Java backend first, but the native one in any case. */
    method DisableUser(pd: int, answers: Answers) returns (ok: bool)
      requires Valid()
      modifies `closed, `owner, `probes, `jvm
      ensures Valid() && ok == UserOk(old(jvm), pd, answers)
      ensures NativeStep(old(jvm), old(owner), old(closed), jvm, owner, closed, pd, Loses(old(jvm), pd, answers))
    {
      hide PmuLedger, Owned, JvmLive, Backends, KernelLedger, KernelLive;
      if pd in jvm {
        ok := answers.java || jvm[pd].javaPd < 0;
        if jvm[pd].nativePd >= 0 && !answers.native {
          LoseNative(pd);
        }
        return;
      }
      return answers.native;
    }

    /** ReadUserTrace: a Java failure returns before the native backend is read. */
    method ReadUser(pd: int, answers: Answers) returns (ok: bool)
      requires Valid()
      modifies `closed, `owner, `probes, `jvm
      ensures Valid() && ok == UserOk(old(jvm), pd, answers)
      ensures NativeStep(old(jvm), old(owner), old(closed), jvm, owner, closed, pd, ok && Loses(old(jvm), pd, answers))
    {
      hide PmuLedger, Owned, JvmLive, Backends, KernelLedger, KernelLive;
      if pd in jvm {
        if jvm[pd].javaPd >= 0 && !answers.java {
          return false;
        }
        if jvm[pd].nativePd >= 0 && !answers.native {
          LoseNative(pd);
        }
        return true;
      }
      return answers.native;
    }

    /** UTraceEnable: the kernel backend only when the user session started; losing it is not a failure. */
    method Enable(pd: int, answers: Answers) returns (ok: bool)
      requires Valid()
      modifies `closed, `owner, `probes, `jvm, `kernel, `kernelSessions, `kernelClosed
      ensures Valid() && Handles() == old(Handles()) && ok == CallOk(old(jvm), old(kernel), pd, answers)
      ensures NativeStep(old(jvm), old(owner), old(closed), jvm, owner, closed, pd,
                         pd !in KernelOnly(old(kernel)) && Loses(old(jvm), pd, answers))
      ensures KernelStep(old(kernel), old(kernelClosed), kernel, kernelClosed, pd,
                         ok && KernelFails(old(kernel), pd, answers))
    {
      hide PmuLedger, Owned, JvmLive, Backends, KernelLedger, KernelLive, HandlesOf, UserOk, Loses;
      if pd !in kernel {
        ok := EnableUser(pd, answers);
        return;
      }
      if kernel[pd].kernelOnly {
        return answers.kernel;
      }
      ok := EnableUser(pd, answers);
      if ok && !answers.kernel {
        CloseKernel(pd);
      }
    }

    /** UTraceDisable: the kernel backend is stopped first and, when that fails, closed last. */
    method Disable(pd: int, answers: Answers) returns (ok: bool)
      requires Valid()
      modifies `closed, `owner, `probes, `jvm, `kernel, `kernelSessions, `kernelClosed
      ensures Valid() && Handles() == old(Handles()) && ok == CallOk(old(jvm), old(kernel), pd, answers)
      ensures NativeStep(old(jvm), old(owner), old(closed), jvm, owner, closed, pd,
                         pd !in KernelOnly(old(kernel)) && Loses(old(jvm), pd, answers))
      ensures KernelStep(old(kernel), old(kernelClosed), kernel, kernelClosed, pd,
                         KernelFails(old(kernel), pd, answers))
    {
      hide PmuLedger, Owned, JvmLive, Backends, KernelLedger, KernelLive, HandlesOf, UserOk, Loses;
      if pd !in kernel {
        ok := DisableUser(pd, answers);
        return;
      }
      if kernel[pd].kernelOnly {
        return answers.kernel;
      }
      ok := DisableUser(pd, answers);
      if !answers.kernel {
        CloseKernel(pd);
      }
    }

    /** UTraceRead: the kernel backend only after the user session was read. */
    method Read(pd: int, answers: Answers) returns (ok: bool)
      requires Valid()
      modifies `closed, `owner, `probes, `jvm, `kernel, `kernelSessions, `kernelClosed
      ensures Valid() && Handles() == old(Handles()) && ok == CallOk(old(jvm), old(kernel), pd, answers)
      ensures NativeStep(old(jvm), old(owner), old(closed), jvm, owner, closed, pd,
                         pd !in KernelOnly(old(kernel)) && ok && Loses(old(jvm), pd, answers))
      ensures KernelStep(old(kernel), old(kernelClosed), kernel, kernelClosed, pd,
                         ok && KernelFails(old(kernel), pd, answers))
    {
      hide PmuLedger, Owned, JvmLive, Backends, KernelLedger, KernelLive, HandlesOf, UserOk, Loses;
      if pd !in kernel {
        ok := ReadUser(pd, answers);
        return;
      }
      if kernel[pd].kernelOnly {
        return answers.kernel;
      }
      ok := ReadUser(pd, answers);
      if ok && !answers.kernel {
        CloseKernel(pd);
      }
    }

    /** UTraceClose of a handle the client holds: every backend still live in that session, and no other, is
        closed. While a kernel-only session has the same handle as a user session, the kernel-only one goes first. */
    method Close(pd: int)
      requires Valid() && pd in Handles()
      modifies `closed, `owner, `probes, `javaSessions, `jvm, `users, `kernel, `kernelSessions, `kernelClosed
      ensures Valid() && Handles() == old(Handles()) - multiset{pd}
      ensures KernelStep(old(kernel), old(kernelClosed), kernel, kernelClosed, pd, pd in old(kernel))
      ensures pd in KernelOnly(old(kernel)) ==>
                users == old(users) && closed == old(closed) && owner == old(owner) && jvm == old(jvm)
      ensures pd !in KernelOnly(old(kernel)) ==>
                && users == old(users) - {pd}
                && closed == old(closed) + multiset(Members(old(jvm), pd))
                && Shrunk(old(owner), owner, pd) && jvm == old(jvm) - {pd}
    {
      hide PmuLedger, Owned, JvmLive, Backends, KernelLedger, KernelLive, Shrunk, Members, HandlesOf;
      if pd !in kernel {
        HandleIn(users, kernel, pd);
        CloseUser(pd);
        return;
      }
      var kernelOnly := kernel[pd].kernelOnly;
      CloseKernel(pd);
      if !kernelOnly {
        CloseUser(pd);
      }
    }
  }

  // ----- Whole runs -----

  /** Closed at most once, and no live descriptor was ever closed: what the ledgers say. */
  lemma ClosedAtMostOnce(t: Sessions, p: int)
    requires t.Valid()
    ensures t.closed[p] <= 1 && t.kernelClosed[p] <= 1
    ensures p in t.owner || p in t.probes || p in t.javaSessions ==> t.closed[p] == 0
    ensures p in t.kernelSessions ==> t.kernelClosed[p] == 0
  {
  }

  /** No session map entry refers to a closed backend. */
  lemma EntriesAreLive(t: Sessions, u: int)
    requires t.Valid()
    ensures u in t.jvm ==> t.closed[u] == 0 && forall p :: Names(t.jvm[u], p) ==> t.closed[p] == 0
    ensures u in t.kernel ==> t.kernel[u].kernelPd in t.kernelSessions && t.kernelClosed[t.kernel[u].kernelPd] == 0
    ensures u in t.kernel && !t.kernel[u].kernelOnly ==> t.closed[u] == 0
  {
  }

  /** Once the client holds no handle, every descriptor ever handed out was closed exactly once. */
  lemma AllClosed(t: Sessions, p: int)
    requires t.Valid() && t.Handles() == multiset{}
    ensures 1 <= p <= t.maxPd ==> t.closed[p] == 1
    ensures p in t.kernelOpened ==> t.kernelClosed[p] == 1
    ensures p !in t.owner && p !in t.probes && p !in t.javaSessions && p !in t.kernelSessions
    ensures p !in t.jvm && p !in t.kernel
  {
    NoHandles(t.users, t.kernel, t.kernelSessions);
  }

  lemma NoHandles(users: set<int>, kernel: map<int, Kern>, kernelSessions: set<int>)
    requires HandlesOf(users, kernel) == multiset{} && KernelLive(users, kernel, kernelSessions)
    ensures forall p :: p !in users && p !in kernel && p !in kernelSessions
  {
    assert forall p :: multiset(users)[p] + multiset(KernelOnly(kernel))[p] == HandlesOf(users, kernel)[p] == 0;
    assert forall p :: p !in users && p !in KernelOnly(kernel);
    assert forall p :: p in kernel ==> (kernel[p].kernelOnly <==> p in KernelOnly(kernel));
    var none: map<int, Kern> := map[];
    assert forall p :: p in kernel <==> p in none;
    assert kernel == none;
    KernelEmpty(users, kernel, kernelSessions);
  }

  /** Two live sessions share a handle exactly when one is a kernel-only session numbered like a user session. */
  lemma SharedExactly(t: Sessions, p: int)
    requires t.Valid()
    ensures t.Handles()[p] <= 2
    ensures t.Handles()[p] == 2 <==> p in t.users && p in t.kernel && t.kernel[p].kernelOnly
  {
    assert p in KernelOnly(t.kernel) <==> p in t.kernel && t.kernel[p].kernelOnly;
  }

  /** The sessions and what was closed, at one moment of a run. */
  datatype Moment = Moment(users: set<int>, owner: map<int, int>, closed: multiset<int>, jvm: map<int, Jvm>,
                           kernel: map<int, Kern>, kernelClosed: multiset<int>)

  /** What an open that returned `pd` did. */
  ghost predicate Opened(a: Moment, req: Request, env: Env, pd: int, b: Moment) {
    && (pd != NONE <==> OpensUser(req, env) || (!HasUser(req) && OpensKernel(req, env, a.kernel)))
    && (if OpensUser(req, env)
        then b.users == a.users + {pd} && SessionAdded(req, env, pd, a.owner, a.jvm, b.owner, b.jvm)
        else b.users == a.users && b.owner == a.owner && b.jvm == a.jvm)
    && (if OpensKernel(req, env, a.kernel)
        then pd in b.kernel && b.kernel.Keys == a.kernel.Keys + {pd} && b.kernel[pd].kernelOnly == !HasUser(req)
        else b.kernel == a.kernel)
  }

  /** What a call that closes nothing but failing back ends did. */
  ghost predicate Kept(a: Moment, pd: int, native: bool, kernel: bool, b: Moment) {
    && b.users == a.users
    && NativeStep(a.jvm, a.owner, a.closed, b.jvm, b.owner, b.closed, pd, pd !in KernelOnly(a.kernel) && native)
    && KernelStep(a.kernel, a.kernelClosed, b.kernel, b.kernelClosed, pd, kernel)
  }

  /** What closing a handle the client holds did. */
  ghost predicate WasClosed(a: Moment, pd: int, b: Moment) {
    && KernelStep(a.kernel, a.kernelClosed, b.kernel, b.kernelClosed, pd, pd in a.kernel)
    && (if pd in KernelOnly(a.kernel)
        then b.users == a.users && b.closed == a.closed && b.owner == a.owner && b.jvm == a.jvm
        else
          && b.users == a.users - {pd} && b.closed == a.closed + multiset(Members(a.jvm, pd))
          && Shrunk(a.owner, b.owner, pd) && b.jvm == a.jvm - {pd})
  }

  /** What each call does to the sessions. */
  ghost predicate Did(a: Moment, call: Call, b: Moment) {
    match call
    case Open(req, env) => exists pd :: Opened(a, req, env, pd, b)
    case Enable(pd, answers) =>
      Kept(a, pd, Loses(a.jvm, pd, answers), CallOk(a.jvm, a.kernel, pd, answers) && KernelFails(a.kernel, pd, answers),
           b)
    case Disable(pd, answers) => Kept(a, pd, Loses(a.jvm, pd, answers), KernelFails(a.kernel, pd, answers), b)
    case Read(pd, answers) =>
      var ok := CallOk(a.jvm, a.kernel, pd, answers);
      Kept(a, pd, ok && Loses(a.jvm, pd, answers), ok && KernelFails(a.kernel, pd, answers), b)
    case Close(pd) => if pd in HandlesOf(a.users, a.kernel) then WasClosed(a, pd, b) else b == a
  }

  /** Any calls, any answers of the backends, and a client that closes only handles it holds; `ms` are the moments
      between the calls. */
  method Run(calls: seq<Call>) returns (t: Sessions, held: multiset<int>, ghost ms: seq<Moment>)
    ensures fresh(t) && t.Valid() && held == t.Handles()
    ensures |ms| == |calls| + 1 && ms[0].users == {} && ms[0].kernel == map[] && ms[|calls|] == t.Now()
    ensures forall i :: 0 <= i < |calls| ==> Did(ms[i], calls[i], ms[i + 1])
  {
    hide Did, PmuLedger, Owned, JvmLive, Backends, KernelLedger, KernelLive, HandlesOf;
    t := new Sessions();
    held, ms := multiset{}, [t.Now()];
    for i := 0 to |calls|
      invariant fresh(t) && t.Valid() && held == t.Handles()
      invariant |ms| == i + 1 && ms[0].users == {} && ms[0].kernel == map[] && ms[i] == t.Now()
      invariant forall j :: 0 <= j < i ==> Did(ms[j], calls[j], ms[j + 1])
    {
      held := Perform(t, calls[i], held);
      ms := ms + [t.Now()];
    }
  }

  lemma OneMore(held: multiset<int>, pd: int)
    ensures held + multiset(Live(pd)) == if pd >= 0 then held + multiset{pd} else held
  {
  }

  lemma KernelPut(kernel: map<int, Kern>, pd: int, k: Kern)
    ensures pd in kernel[pd := k] && kernel[pd := k].Keys == kernel.Keys + {pd} && kernel[pd := k][pd] == k
  {
  }

  method PerformOpen(t: Sessions, req: Request, env: Env, held: multiset<int>) returns (now: multiset<int>)
    requires t.Valid() && held == t.Handles()
    modifies t
    ensures t.Valid() && now == t.Handles() && exists pd :: Opened(old(t.Now()), req, env, pd, t.Now())
  {
    hide PmuLedger, Owned, JvmLive, Backends, KernelLedger, KernelLive, HandlesOf, SessionAdded, OpensUser, OpensKernel,
         Live, HasUser;
    ghost var a, k := t.Now(), Kern(t.nextKernelPd, !HasUser(req));
    var pd := t.Open(req, env);
    KernelPut(a.kernel, pd, k);
    assert Opened(a, req, env, pd, t.Now());
    OneMore(held, pd);
    now := if pd >= 0 then held + multiset{pd} else held;
  }

  method PerformClose(t: Sessions, pd: int, held: multiset<int>) returns (now: multiset<int>)
    requires t.Valid() && held == t.Handles()
    modifies t
    ensures t.Valid() && now == t.Handles()
    ensures if pd in held then WasClosed(old(t.Now()), pd, t.Now()) else t.Now() == old(t.Now())
  {
    hide PmuLedger, Owned, JvmLive, Backends, KernelLedger, KernelLive, HandlesOf, KernelStep, Shrunk, Members;
    now := held;
    if pd in held {
      t.Close(pd);
      now := held - multiset{pd};
    }
  }

  method Perform(t: Sessions, call: Call, held: multiset<int>) returns (now: multiset<int>)
    requires t.Valid() && held == t.Handles()
    modifies t
    ensures t.Valid() && now == t.Handles() && Did(old(t.Now()), call, t.Now())
  {
    hide PmuLedger, Owned, JvmLive, Backends, KernelLedger, KernelLive, HandlesOf, NativeStep, KernelStep, CallOk,
         Opened, WasClosed, Loses, KernelFails, KernelOnly;
    now := held;
    match call
    case Open(req, env) =>
      now := PerformOpen(t, req, env, held);
    case Enable(pd, answers) =>
      var _ := t.Enable(pd, answers);
    case Disable(pd, answers) =>
      var _ := t.Disable(pd, answers);
    case Read(pd, answers) =>
      var _ := t.Read(pd, answers);
    case Close(pd) =>
      now := PerformClose(t, pd, held);
  }

  /** A kernel-only session and a user session opened one after the other get the same handle. */
  method HandlesCollide() returns (a: int, b: int, t: Sessions)
    ensures fresh(t) && t.Valid() && a == b == 1 && t.Handles()[1] == 2
  {
    t := new Sessions();
    var env := Env(true, NativeOpens, JavaOpens, true, KernelOpens);
    a := t.Open(Request(false, false, false, true), env);
    b := t.Open(Request(true, false, true, false), env);
    SharedExactly(t, 1);
  }
}
