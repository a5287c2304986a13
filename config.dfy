/**
  Browser options and the canonical key built from them (generateKey).
  An option sets one named field; the key is the four final field values
  formatted as "proxy-headless-poolSize-idleTimeout".
 */
module Config {
  import opened GoFormat

  /** The four configurable fields of a Browser. */
  datatype Settings = Settings(proxy: string, headless: bool, poolSize: int, idleTimeout: int)

  /** A functional option: each one overwrites exactly one field. */
  datatype Option =
    | WithProxy(proxy: string)
    | WithHeadless(headless: bool)
    | WithPoolSize(poolSize: int)
    | WithIdleTimeout(idleTimeout: int)

  datatype Field = Proxy | Headless | PoolSize | IdleTimeout

  function FieldOf(o: Option): Field
  {
    match o
    case WithProxy(_) => Proxy
    case WithHeadless(_) => Headless
    case WithPoolSize(_) => PoolSize
    case WithIdleTimeout(_) => IdleTimeout
  }

  /** The temporary struct generateKey starts from: headless, three pages, five minutes, no proxy. */
  const KeyBase: Settings := Settings("", true, 3, 5 * Minute)

  /** One field of two structs holds the same value. */
  predicate SameField(s: Settings, t: Settings, f: Field)
  {
    match f
    case Proxy => s.proxy == t.proxy
    case Headless => s.headless == t.headless
    case PoolSize => s.poolSize == t.poolSize
    case IdleTimeout => s.idleTimeout == t.idleTimeout
  }

  /** Running one option on a struct: its own field takes the option's value, the others keep theirs. */
  function Apply(s: Settings, o: Option): (r: Settings)
    ensures o.WithProxy? ==> r.proxy == o.proxy
    ensures o.WithHeadless? ==> r.headless == o.headless
    ensures o.WithPoolSize? ==> r.poolSize == o.poolSize
    ensures o.WithIdleTimeout? ==> r.idleTimeout == o.idleTimeout
  {
    match o
    case WithProxy(p) => s.(proxy := p)
    case WithHeadless(h) => s.(headless := h)
    case WithPoolSize(n) => s.(poolSize := n)
    case WithIdleTimeout(d) => s.(idleTimeout := d)
  }

  /** No option in opts sets field f. */
  predicate Untouched(opts: seq<Option>, f: Field)
  {
    forall i :: 0 <= i < |opts| ==> FieldOf(opts[i]) != f
  }

  /** Running the options in order, as the `for _, option := range options` loops do. */
  function ApplyAll(s: Settings, opts: seq<Option>): (r: Settings)
    ensures opts != [] ==> Apply(r, opts[|opts| - 1]) == r
    decreases |opts|
  {
    if opts == [] then s else ApplyAll(Apply(s, opts[0]), opts[1..])
  }

  /** An option leaves every field but its own as it was. */
  lemma ApplyFrame(s: Settings, o: Option, f: Field)
    requires f != FieldOf(o)
    ensures SameField(Apply(s, o), s, f)
  {
  }

  /** A field no option sets keeps the value it had before the loop. */
  lemma {:induction false} ApplyAllUntouched(s: Settings, opts: seq<Option>, f: Field)
    requires Untouched(opts, f)
    ensures SameField(ApplyAll(s, opts), s, f)
    decreases |opts|
  {
    if opts != [] {
      var t := Apply(s, opts[0]);
      assert FieldOf(opts[0]) != f;
      ApplyFrame(s, opts[0], f);
      assert forall i :: 0 <= i < |opts| - 1 ==> opts[1..][i] == opts[i + 1];
      ApplyAllUntouched(t, opts[1..], f);
    }
  }

  /** Two verbs of a format joined by a literal dash. */
  function Dash(a: string, b: string): string
  {
    a + "-" + b
  }

  /** fmt.Sprintf("%s-%t-%d-%s") over the four fields. */
  function Format(s: Settings): string
  {
    Dash(Dash(Dash(s.proxy, BoolString(s.headless)), IntString(s.poolSize)), DurationString(s.idleTimeout))
  }

  /** generateKey: the options run over the key's base struct, then formatted. */
  function GenerateKey(opts: seq<Option>): string
  {
    Format(ApplyAll(KeyBase, opts))
  }

  /**
    The options Close rebuilds from an instance's own fields to find its
    registry key: one per field, each re-setting the value the field has.
   */
  function OwnOptions(s: Settings): (r: seq<Option>)
    ensures |r| == 4 && DistinctFields(r)
    ensures forall i :: 0 <= i < |r| ==> Apply(s, r[i]) == s
  {
    [WithProxy(s.proxy), WithHeadless(s.headless), WithPoolSize(s.poolSize), WithIdleTimeout(s.idleTimeout)]
  }

  /** Index of the last option in opts that sets field f, or -1 when none does. */
  function LastSetter(opts: seq<Option>, f: Field): (i: int)
    ensures -1 <= i < |opts|
    ensures i >= 0 ==> FieldOf(opts[i]) == f
    ensures forall j :: i < j < |opts| ==> FieldOf(opts[j]) != f
    decreases |opts|
  {
    if opts == [] then -1
    else if FieldOf(opts[|opts| - 1]) == f then |opts| - 1
    else LastSetter(opts[..|opts| - 1], f)
  }

  /**
    Reference meaning of an option list: each field takes the value of the
    last option that sets it, or keeps its value in s when none does.
   */
  function Final(s: Settings, opts: seq<Option>): Settings
  {
    var p, h, n, d := LastSetter(opts, Proxy), LastSetter(opts, Headless),
                      LastSetter(opts, PoolSize), LastSetter(opts, IdleTimeout);
    Settings(if p < 0 then s.proxy else opts[p].proxy,
             if h < 0 then s.headless else opts[h].headless,
             if n < 0 then s.poolSize else opts[n].poolSize,
             if d < 0 then s.idleTimeout else opts[d].idleTimeout)
  }

  /** Each field is set at most once in opts. */
  ghost predicate DistinctFields(opts: seq<Option>)
  {
    forall i, j :: 0 <= i < j < |opts| ==> FieldOf(opts[i]) != FieldOf(opts[j])
  }

  /** Running a concatenation runs the first part, then the second. */
  lemma {:induction false} ApplyAllConcat(s: Settings, a: seq<Option>, b: seq<Option>)
    ensures ApplyAll(s, a + b) == ApplyAll(ApplyAll(s, a), b)
    decreases |a|
  {
    if a != [] {
      assert (a + b)[0] == a[0];
      assert (a + b)[1..] == a[1..] + b;
      ApplyAllConcat(Apply(s, a[0]), a[1..], b);
    } else {
      assert a + b == b;
    }
  }

  lemma ApplyAllOne(s: Settings, o: Option)
    ensures ApplyAll(s, [o]) == Apply(s, o)
  {
    assert [o][1..] == [];
  }

  /** Adding one option at the end of a list changes the field-wise last writer as Apply does. */
  lemma FinalSnoc(s: Settings, opts: seq<Option>)
    requires opts != []
    ensures Final(s, opts) == Apply(Final(s, opts[..|opts| - 1]), opts[|opts| - 1])
  {
    var n := |opts| - 1;
    var init := opts[..n];
    forall j | 0 <= j < n ensures opts[j] == init[j] {
    }
    match opts[n]
    case WithProxy(_) =>
      assert LastSetter(opts, Proxy) == n;
    case WithHeadless(_) =>
      assert LastSetter(opts, Headless) == n;
    case WithPoolSize(_) =>
      assert LastSetter(opts, PoolSize) == n;
    case WithIdleTimeout(_) =>
      assert LastSetter(opts, IdleTimeout) == n;
  }

  /** The options loop computes exactly the field-wise last writer. */
  lemma {:induction false} ApplyAllIsFinal(s: Settings, opts: seq<Option>)
    ensures ApplyAll(s, opts) == Final(s, opts)
    decreases |opts|
  {
    if opts != [] {
      var n := |opts| - 1;
      var init := opts[..n];
      assert opts == init + [opts[n]];
      ApplyAllConcat(s, init, [opts[n]]);
      ApplyAllOne(ApplyAll(s, init), opts[n]);
      ApplyAllIsFinal(s, init);
      FinalSnoc(s, opts);
    }
  }

  /** The key depends on the options only through the final field values. */
  lemma KeyDependsOnlyOnFinal(a: seq<Option>, b: seq<Option>)
    requires Final(KeyBase, a) == Final(KeyBase, b)
    ensures GenerateKey(a) == GenerateKey(b)
  {
    ApplyAllIsFinal(KeyBase, a);
    ApplyAllIsFinal(KeyBase, b);
  }

  lemma ApplyAllPair(s: Settings, o1: Option, o2: Option)
    ensures ApplyAll(s, [o1, o2]) == Apply(Apply(s, o1), o2)
  {
    ApplyAllConcat(s, [o1], [o2]);
    assert [o1] + [o2] == [o1, o2];
    ApplyAllOne(s, o1);
    ApplyAllOne(Apply(s, o1), o2);
  }

  lemma ApplyDistinctCommute(s: Settings, o1: Option, o2: Option)
    requires FieldOf(o1) != FieldOf(o2)
    ensures Apply(Apply(s, o1), o2) == Apply(Apply(s, o2), o1)
  {
  }

  /** Adjacent setters of different fields can be swapped anywhere in the list. */
  lemma SettersCommute(p: seq<Option>, o1: Option, o2: Option, q: seq<Option>)
    requires FieldOf(o1) != FieldOf(o2)
    ensures GenerateKey(p + [o1, o2] + q) == GenerateKey(p + [o2, o1] + q)
  {
    var s := ApplyAll(KeyBase, p);
    ApplyAllConcat(KeyBase, p + [o1, o2], q);
    ApplyAllConcat(KeyBase, p, [o1, o2]);
    ApplyAllConcat(KeyBase, p + [o2, o1], q);
    ApplyAllConcat(KeyBase, p, [o2, o1]);
    ApplyAllPair(s, o1, o2);
    ApplyAllPair(s, o2, o1);
    ApplyDistinctCommute(s, o1, o2);
  }

  /** A later setter of the same field wins: the earlier one has no effect on the key. */
  lemma LastWriterWins(p: seq<Option>, o1: Option, o2: Option, q: seq<Option>)
    requires FieldOf(o1) == FieldOf(o2)
    ensures GenerateKey(p + [o1, o2] + q) == GenerateKey(p + [o2] + q)
  {
    var s := ApplyAll(KeyBase, p);
    ApplyAllConcat(KeyBase, p + [o1, o2], q);
    ApplyAllConcat(KeyBase, p, [o1, o2]);
    ApplyAllConcat(KeyBase, p + [o2], q);
    ApplyAllConcat(KeyBase, p, [o2]);
    ApplyAllPair(s, o1, o2);
    ApplyAllOne(s, o2);
  }

  /** In a list that sets each field at most once, the setter of f is the last one. */
  lemma UniqueSetterIsLast(opts: seq<Option>, j: int)
    requires DistinctFields(opts)
    requires 0 <= j < |opts|
    ensures LastSetter(opts, FieldOf(opts[j])) == j
  {
  }

  /** When a sets f and b holds the same options, b's setter of f is a's. */
  lemma SetterCarriesOver(a: seq<Option>, b: seq<Option>, f: Field)
    requires DistinctFields(b)
    requires multiset(a) == multiset(b)
    requires LastSetter(a, f) >= 0
    ensures LastSetter(b, f) >= 0 && b[LastSetter(b, f)] == a[LastSetter(a, f)]
  {
    var i := LastSetter(a, f);
    assert a[i] in multiset(b);
    var j :| 0 <= j < |b| && b[j] == a[i];
    UniqueSetterIsLast(b, j);
  }

  lemma SameFinalField(a: seq<Option>, b: seq<Option>, f: Field)
    requires DistinctFields(a) && DistinctFields(b)
    requires multiset(a) == multiset(b)
    ensures LastSetter(a, f) < 0 <==> LastSetter(b, f) < 0
    ensures LastSetter(a, f) >= 0 ==> a[LastSetter(a, f)] == b[LastSetter(b, f)]
  {
    if LastSetter(a, f) >= 0 {
      SetterCarriesOver(a, b, f);
    }
    if LastSetter(b, f) >= 0 {
      SetterCarriesOver(b, a, f);
    }
  }

  /**
    Option lists that set each field at most once give the same key whatever
    order the options come in.
   */
  lemma KeyOrderIndependent(a: seq<Option>, b: seq<Option>)
    requires DistinctFields(a) && DistinctFields(b)
    requires multiset(a) == multiset(b)
    ensures GenerateKey(a) == GenerateKey(b)
  {
    SameFinalField(a, b, Proxy);
    SameFinalField(a, b, Headless);
    SameFinalField(a, b, PoolSize);
    SameFinalField(a, b, IdleTimeout);
    KeyDependsOnlyOnFinal(a, b);
  }

  lemma ThreeString()
    ensures IntString(3) == "3"
  {
    assert NatString(3) == [DigitChar(3)];
  }

  /**
    With no options the key is the defaults' fields joined by dashes: an
    empty proxy, "true", "3" and "5m0s", that is "-true-3-5m0s".
   */
  lemma DefaultKey()
    ensures GenerateKey([]) == "-true-3-5m0s"
  {
    assert ApplyAll(KeyBase, []) == KeyBase;
    DefaultFormat();
  }

  lemma DefaultFormat()
    ensures Format(KeyBase) == "-true-3-5m0s"
  {
    FiveMinutesString();
    ThreeString();
    assert Format(KeyBase) == Dash(Dash(Dash("", "true"), "3"), "5m0s");
    SpellDefaultKey();
  }

  lemma SpellDefaultKey()
    ensures Dash(Dash(Dash("", "true"), "3"), "5m0s") == "-true-3-5m0s"
  {
  }

  /** Spelling out the defaults gives the same key as giving no options. */
  lemma ExplicitDefaultsKey()
    ensures GenerateKey([WithHeadless(true), WithPoolSize(3), WithIdleTimeout(5 * Minute)]) == GenerateKey([])
  {
    var opts := [WithHeadless(true), WithPoolSize(3), WithIdleTimeout(5 * Minute)];
    assert opts == [WithHeadless(true), WithPoolSize(3)] + [WithIdleTimeout(5 * Minute)];
    ApplyAllConcat(KeyBase, [WithHeadless(true), WithPoolSize(3)], [WithIdleTimeout(5 * Minute)]);
    ApplyAllPair(KeyBase, WithHeadless(true), WithPoolSize(3));
    ApplyAllOne(KeyBase, WithIdleTimeout(5 * Minute));
    assert ApplyAll(KeyBase, opts) == KeyBase == ApplyAll(KeyBase, []);
  }

  /** Rebuilding the options from the final fields reproduces the key of the original options. */
  lemma OwnOptionsKey(opts: seq<Option>)
    ensures GenerateKey(OwnOptions(ApplyAll(KeyBase, opts))) == GenerateKey(opts)
  {
    OwnOptionsRebuild(ApplyAll(KeyBase, opts), KeyBase);
  }

  /** Running an instance's own options on any struct gives back the instance's fields. */
  lemma OwnOptionsRebuild(s: Settings, t: Settings)
    ensures ApplyAll(t, OwnOptions(s)) == s
  {
    var own := OwnOptions(s);
    assert own == [WithProxy(s.proxy), WithHeadless(s.headless)] + [WithPoolSize(s.poolSize), WithIdleTimeout(s.idleTimeout)];
    ApplyAllConcat(t, [WithProxy(s.proxy), WithHeadless(s.headless)], [WithPoolSize(s.poolSize), WithIdleTimeout(s.idleTimeout)]);
    ApplyAllPair(t, WithProxy(s.proxy), WithHeadless(s.headless));
    ApplyAllPair(Apply(Apply(t, WithProxy(s.proxy)), WithHeadless(s.headless)), WithPoolSize(s.poolSize), WithIdleTimeout(s.idleTimeout));
  }

  /**
    Format is injective: reading the key from the right, the duration's
    magnitude is the text after the last dash and its sign is a dash just
    before, the pool size likewise, and "true" or "false" is the text after
    the proxy's last dash.
   */
  lemma FormatInjective(s: Settings, t: Settings)
    requires Format(s) == Format(t)
    ensures s == t
  {
    var ps, pt := Dash(s.proxy, BoolString(s.headless)), Dash(t.proxy, BoolString(t.headless));
    var xs, xt := Dash(ps, IntString(s.poolSize)), Dash(pt, IntString(t.poolSize));
    DurationSigned(s.idleTimeout);
    DurationSigned(t.idleTimeout);
    IntStringLastDigit(s.poolSize);
    IntStringLastDigit(t.poolSize);
    MagnitudeWithoutDash(Abs(s.idleTimeout));
    MagnitudeWithoutDash(Abs(t.idleTimeout));
    PeelSigned(xs, s.idleTimeout < 0, MagnitudeString(Abs(s.idleTimeout)),
               xt, t.idleTimeout < 0, MagnitudeString(Abs(t.idleTimeout)));
    DurationStringInjective(s.idleTimeout, t.idleTimeout);
    IntStringSigned(s.poolSize);
    IntStringSigned(t.poolSize);
    NatWithoutDash(Abs(s.poolSize));
    NatWithoutDash(Abs(t.poolSize));
    PeelSigned(ps, s.poolSize < 0, NatString(Abs(s.poolSize)),
               pt, t.poolSize < 0, NatString(Abs(t.poolSize)));
    IntStringInjective(s.poolSize, t.poolSize);
    SplitAtLast('-', s.proxy, BoolString(s.headless), t.proxy, BoolString(t.headless));
  }

  /** Two option lists share a key exactly when they give the same final fields. */
  lemma KeyInjective(a: seq<Option>, b: seq<Option>)
    ensures GenerateKey(a) == GenerateKey(b) <==> ApplyAll(KeyBase, a) == ApplyAll(KeyBase, b)
  {
    if GenerateKey(a) == GenerateKey(b) {
      FormatInjective(ApplyAll(KeyBase, a), ApplyAll(KeyBase, b));
    }
  }

  /** Settings that differ only in headless get different keys. */
  lemma HeadlessSeparates(s: Settings, t: Settings)
    requires s.proxy == t.proxy && s.poolSize == t.poolSize && s.idleTimeout == t.idleTimeout
    requires s.headless != t.headless
    ensures Format(s) != Format(t)
  {
    if Format(s) == Format(t) {
      FormatInjective(s, t);
    }
  }
}
