/**
 * The kernel command line: printed by src/vm/kernel_cmdline.rs in the
 * hypervisor, parsed by ph-init/src/cmdline.rs in the guest.
 */
module CommandLine {
  import opened Machine

  /** char::is_whitespace: the Unicode White_Space property. */
  predicate IsWhitespace(c: char) {
    var n := c as int;
    || 0x09 <= n <= 0x0d || n == 0x20 || n == 0x85 || n == 0xa0 || n == 0x1680
    || 0x2000 <= n <= 0x200a || n == 0x2028 || n == 0x2029 || n == 0x202f || n == 0x205f || n == 0x3000
  }

  predicate Solid(s: string) {
    forall i :: 0 <= i < |s| ==> !IsWhitespace(s[i])
  }

  predicate NoEquals(s: string) {
    forall i :: 0 <= i < |s| ==> s[i] != '='
  }

  predicate StartsWithEquals(s: string) {
    s != "" && s[0] == '='
  }

  // ----- printing -----

  /** A push of free text, which may be a flag or key=val; of a flag set to 1; of a key with a value. */
  datatype Setting = Text(option: string) | SetTrue(key: string) | SetVal(key: string, val: string)

  function Printed(p: Setting): string {
    match p
    case Text(option) => option
    case SetTrue(key) => key + "=" + "1"
    case SetVal(key, val) => key + "=" + val
  }

  function Pushed(buffer: string, option: string): string {
    if buffer == "" then option else buffer + " " + option
  }

  function Join(ws: seq<string>): string {
    if ws == [] then "" else Pushed(Join(ws[..|ws| - 1]), ws[|ws| - 1])
  }

  function Texts(ps: seq<Setting>): (ws: seq<string>)
    ensures |ws| == |ps| && forall i :: 0 <= i < |ps| ==> ws[i] == Printed(ps[i])
  {
    seq(|ps|, i requires 0 <= i < |ps| => Printed(ps[i]))
  }

  /** The buffer after the pushes. */
  function Print(ps: seq<Setting>): string {
    Join(Texts(ps))
  }

  lemma {:induction false} PrintOneMore(ps: seq<Setting>, p: Setting)
    ensures Print(ps + [p]) == Pushed(Print(ps), Printed(p))
  {
    assert Texts(ps + [p]) == Texts(ps) + [Printed(p)];
    assert Texts(ps + [p])[..|ps|] == Texts(ps);
  }

  // ----- parsing -----

  /** Where the first word ends. */
  function WordEnd(s: string): (n: nat)
    ensures n <= |s| && Solid(s[..n]) && (n < |s| ==> IsWhitespace(s[n]))
  {
    if s == "" || IsWhitespace(s[0]) then 0
    else
      var n := WordEnd(s[1..]);
      assert s[..1 + n] == [s[0]] + s[1..][..n];
      1 + n
  }

  /** split_whitespace */
  function Words(s: string): seq<string>
    decreases |s|
  {
    if s == "" then []
    else if IsWhitespace(s[0]) then Words(s[1..])
    else [s[..WordEnd(s)]] + Words(s[WordEnd(s)..])
  }

  /** The position of the first '=', or the length. */
  function FirstEquals(s: string): (n: nat)
    ensures n <= |s| && NoEquals(s[..n]) && (n < |s| ==> s[n] == '=')
  {
    if s == "" || s[0] == '=' then 0
    else
      var n := FirstEquals(s[1..]);
      assert s[..1 + n] == [s[0]] + s[1..][..n];
      1 + n
  }

  /** trim_start_matches('=') */
  function TrimEquals(s: string): (r: string)
    ensures !StartsWithEquals(r)
    ensures |r| <= |s| && r == s[|s| - |r|..]
  {
    if StartsWithEquals(s) then TrimEquals(s[1..]) else s
  }

  datatype Binding = Binding(key: string, value: Option<string>)

  function ParseWord(w: string): Binding {
    var eq := FirstEquals(w);
    if eq < |w| then Binding(w[..eq], Some(TrimEquals(w[eq..]))) else Binding(w, None)
  }

  type Vars = map<string, Option<string>>

  function Bind(bs: seq<Binding>): Vars {
    if bs == [] then map[]
    else Bind(bs[..|bs| - 1])[bs[|bs| - 1].key := bs[|bs| - 1].value]
  }

  function ParseWords(ws: seq<string>): (bs: seq<Binding>)
    ensures |bs| == |ws| && forall i :: 0 <= i < |ws| ==> bs[i] == ParseWord(ws[i])
  {
    seq(|ws|, i requires 0 <= i < |ws| => ParseWord(ws[i]))
  }

  function Parse(line: string): Vars {
    Bind(ParseWords(Words(line)))
  }

  // ----- what a push means -----

  function Meaning(p: Setting): Binding {
    match p
    case Text(option) =>
      var eq := FirstEquals(option);
      if eq < |option| then Binding(option[..eq], Some(option[eq + 1..])) else Binding(option, None)
    case SetTrue(key) => Binding(key, Some("1"))
    case SetVal(key, val) => Binding(key, Some(val))
  }

  function Meanings(ps: seq<Setting>): (bs: seq<Binding>)
    ensures |bs| == |ps| && forall i :: 0 <= i < |ps| ==> bs[i] == Meaning(ps[i])
  {
    seq(|ps|, i requires 0 <= i < |ps| => Meaning(ps[i]))
  }

  /** Each key with the value of its last push, and no other keys. */
  function LastPushes(ps: seq<Setting>): Vars {
    Bind(Meanings(ps))
  }

  /** A binding that the parser can produce. */
  predicate CleanBinding(b: Binding) {
    && Solid(b.key) && NoEquals(b.key)
    && (b.value.None? ==> b.key != "")
    && (b.value.Some? ==> Solid(b.value.value) && !StartsWithEquals(b.value.value))
  }

  predicate Clean(p: Setting) {
    CleanBinding(Meaning(p))
  }

  // ----- words -----

  lemma {:induction false} WordsAreSolid(s: string, i: nat)
    requires i < |Words(s)|
    ensures Words(s)[i] != "" && Solid(Words(s)[i])
    decreases |s|
  {
    if IsWhitespace(s[0]) {
      WordsAreSolid(s[1..], i);
    } else if i > 0 {
      WordsAreSolid(s[WordEnd(s)..], i - 1);
    }
  }

  lemma {:induction false} SolidWord(w: string)
    requires w != "" && Solid(w)
    ensures Words(w) == [w]
  {
    assert WordEnd(w) == |w|;
    assert w[..|w|] == w && w[|w|..] == "";
  }

  lemma {:induction false} WordEndBefore(s: string, tail: string)
    requires tail != "" && IsWhitespace(tail[0])
    ensures WordEnd(s + tail) == WordEnd(s)
  {
    if s == "" {
      assert s + tail == tail;
    } else if !IsWhitespace(s[0]) {
      assert (s + tail)[1..] == s[1..] + tail;
      WordEndBefore(s[1..], tail);
    }
  }

  lemma {:induction false} WordsAppend(s: string, w: string)
    requires w != "" && Solid(w)
    ensures Words(s + (" " + w)) == Words(s) + [w]
    decreases |s|
  {
    var tail := " " + w;
    if s == "" {
      assert s + tail == tail && tail[1..] == w;
      SolidWord(w);
    } else if IsWhitespace(s[0]) {
      assert (s + tail)[1..] == s[1..] + tail;
      WordsAppend(s[1..], w);
    } else {
      WordEndBefore(s, tail);
      var n := WordEnd(s);
      assert (s + tail)[..n] == s[..n] && (s + tail)[n..] == s[n..] + tail;
      WordsAppend(s[n..], w);
    }
  }

  // ----- round trip -----

  lemma {:induction false} FirstEqualsOf(key: string, tail: string)
    requires NoEquals(key) && (tail == "" || tail[0] == '=')
    ensures FirstEquals(key + tail) == |key|
  {
    if key == "" {
      assert key + tail == tail;
    } else {
      assert (key + tail)[1..] == key[1..] + tail;
      FirstEqualsOf(key[1..], tail);
    }
  }

  lemma {:induction false} ValueBack(key: string, val: string)
    requires NoEquals(key)
    ensures ParseWord(key + "=" + val) == Binding(key, Some(TrimEquals(val)))
  {
    var tail := "=" + val;
    var w := key + tail;
    assert key + "=" + val == w;
    FirstEqualsOf(key, tail);
    assert w[..|key|] == key && w[|key|..] == tail;
    assert StartsWithEquals(tail) && tail[1..] == val;
  }

  lemma {:induction false} SolidSetting(key: string, val: string)
    requires Solid(key) && Solid(val)
    ensures key + "=" + val != "" && Solid(key + "=" + val)
  {
  }

  lemma {:induction false} FlagWord(key: string)
    requires NoEquals(key)
    ensures ParseWord(key) == Binding(key, None)
  {
    FirstEqualsOf(key, "");
    assert key + "" == key;
  }

  lemma {:induction false} ValueWord(key: string, val: string)
    requires Solid(key) && NoEquals(key) && Solid(val) && !StartsWithEquals(val)
    ensures var w := key + "=" + val;
            w != "" && Solid(w) && ParseWord(w) == Binding(key, Some(val))
  {
    ValueBack(key, val);
    SolidSetting(key, val);
  }

  /** A clean push prints as one word, and the word parses as the push. */
  lemma {:induction false} CleanWord(p: Setting)
    requires Clean(p)
    ensures Printed(p) != "" && Solid(Printed(p)) && ParseWord(Printed(p)) == Meaning(p)
  {
    match p {
      case Text(option) =>
        var eq := FirstEquals(option);
        if eq < |option| {
          assert option == option[..eq] + "=" + option[eq + 1..];
          ValueWord(option[..eq], option[eq + 1..]);
        } else {
          FlagWord(option);
        }
      case SetTrue(key) => ValueWord(key, "1");
      case SetVal(key, val) => ValueWord(key, val);
    }
  }

  predicate AllClean(ps: seq<Setting>) {
    forall i :: 0 <= i < |ps| ==> Clean(ps[i])
  }

  lemma {:induction false} WordsOfPushed(buffer: string, w: string)
    requires w != "" && Solid(w)
    ensures Words(Pushed(buffer, w)) == Words(buffer) + [w]
  {
    if buffer == "" {
      SolidWord(w);
    } else {
      assert Pushed(buffer, w) == buffer + (" " + w);
      WordsAppend(buffer, w);
    }
  }

  predicate IsWord(w: string) {
    w != "" && Solid(w)
  }

  lemma {:induction false} WordsOfJoin(ws: seq<string>)
    requires forall i :: 0 <= i < |ws| ==> IsWord(ws[i])
    ensures Words(Join(ws)) == ws
  {
    if ws != [] {
      var front, last := ws[..|ws| - 1], ws[|ws| - 1];
      WordsOfJoin(front);
      assert IsWord(last);
      WordsOfPushed(Join(front), last);
      assert ws == front + [last];
    }
  }

  lemma {:induction false} CleanRoundTrip(ps: seq<Setting>)
    requires AllClean(ps)
    ensures Parse(Print(ps)) == LastPushes(ps)
  {
    var ws := Texts(ps);
    forall i | 0 <= i < |ps|
      ensures IsWord(ws[i]) && ParseWord(ws[i]) == Meaning(ps[i])
    {
      CleanWord(ps[i]);
    }
    WordsOfJoin(ws);
    assert ParseWords(ws) == Meanings(ps);
  }

  lemma {:induction false} WordIsClean(w: string)
    requires w != "" && Solid(w)
    ensures CleanBinding(ParseWord(w))
  {
  }

  lemma {:induction false} BoundComesFrom(bs: seq<Binding>, key: string)
    requires key in Bind(bs)
    ensures Binding(key, Bind(bs)[key]) in bs
  {
    if bs[|bs| - 1].key == key {
      assert bs[|bs| - 1] == Binding(key, Bind(bs)[key]);
    } else {
      BoundComesFrom(bs[..|bs| - 1], key);
    }
  }

  /** Whatever the line, the parser only produces clean bindings. */
  lemma {:induction false} ParsedIsClean(line: string, key: string)
    requires key in Parse(line)
    ensures CleanBinding(Binding(key, Parse(line)[key]))
  {
    var ws := Words(line);
    var bs := ParseWords(ws);
    BoundComesFrom(bs, key);
    var i :| 0 <= i < |bs| && bs[i] == Binding(key, Parse(line)[key]);
    WordsAreSolid(line, i);
    WordIsClean(ws[i]);
  }

  /** The line is faithful after k pushes. */
  ghost predicate FaithfulAfter(ps: seq<Setting>, k: nat)
    requires k <= |ps|
  {
    Parse(Print(ps[..k])) == LastPushes(ps[..k])
  }

  lemma {:induction false} FaithfulNeedsClean(ps: seq<Setting>, k: nat)
    requires k < |ps| && FaithfulAfter(ps, k + 1)
    ensures Clean(ps[k])
  {
    var front := ps[..k + 1];
    var bs := Meanings(front);
    var last := bs[|bs| - 1];
    assert last == Meaning(ps[k]);
    assert last.key in Bind(bs) && Bind(bs)[last.key] == last.value;
    ParsedIsClean(Print(front), last.key);
  }

  /**
   * After every push the parsed line gives each key the value of its last push
   * and no other keys, if and only if every push is clean.
   */
  lemma {:induction false} RoundTripIff(ps: seq<Setting>)
    ensures (forall k :: 0 <= k <= |ps| ==> FaithfulAfter(ps, k)) <==> AllClean(ps)
  {
    if AllClean(ps) {
      forall k | 0 <= k <= |ps|
        ensures FaithfulAfter(ps, k)
      {
        CleanRoundTrip(ps[..k]);
      }
    }
    if forall k :: 0 <= k <= |ps| ==> FaithfulAfter(ps, k) {
      forall k | 0 <= k < |ps|
        ensures Clean(ps[k])
      {
        assert FaithfulAfter(ps, k + 1);
        FaithfulNeedsClean(ps, k);
      }
    }
  }

  lemma {:induction false} PrintOne(p: Setting)
    ensures Print([p]) == Printed(p)
  {
    PrintOneMore([], p);
    assert [] + [p] == [p];
  }

  lemma {:induction false} BindOne(b: Binding)
    ensures Bind([b]) == map[b.key := b.value]
  {
    assert [b][..0] == [];
  }

  lemma {:induction false} ParseOne(w: string)
    requires w != "" && Solid(w)
    ensures Parse(w) == map[ParseWord(w).key := ParseWord(w).value]
  {
    SolidWord(w);
    assert ParseWords([w]) == [ParseWord(w)];
    BindOne(ParseWord(w));
  }

  /** What any value without whitespace comes back as: its leading '=' are lost. */
  lemma {:induction false} LeadingEqualsLost(key: string, val: string)
    requires Solid(key) && NoEquals(key) && Solid(val)
    ensures Parse(Print([SetVal(key, val)])) == map[key := Some(TrimEquals(val))]
    ensures TrimEquals(val) == val <==> !StartsWithEquals(val)
  {
    PrintOne(SetVal(key, val));
    SolidSetting(key, val);
    ParseOne(key + "=" + val);
    ValueBack(key, val);
  }

  // ----- the default command line -----

  /** A key, an equals sign and a value, pushed as one text, mean the same as the key pushed with the value. */
  lemma {:induction false} KeyValText(key: string, val: string)
    requires NoEquals(key)
    ensures Meaning(Text(key + "=" + val)) == Meaning(SetVal(key, val))
  {
    var option := key + "=" + val;
    assert option == key + ("=" + val);
    FirstEqualsOf(key, "=" + val);
    assert option[..|key|] == key && option[|key| + 1..] == val;
  }

  lemma {:induction false} FlagText(option: string)
    requires NoEquals(option)
    ensures Meaning(Text(option)) == Binding(option, None)
  {
    FirstEqualsOf(option, "");
    assert option + "" == option;
  }

  predicate Plain(s: string) {
    s != "" && Solid(s) && NoEquals(s)
  }

  lemma {:induction false} PlainFlag(option: string)
    requires Plain(option)
    ensures Clean(Text(option))
  {
    FlagText(option);
  }

  lemma {:induction false} PlainSetting(key: string, val: string)
    requires Plain(key) && Plain(val)
    ensures Clean(Text(key + "=" + val)) && Clean(SetVal(key, val)) && Clean(SetTrue(key))
  {
    KeyValText(key, val);
  }

  function Flags(a: string, b: string, c: string): seq<Setting> {
    [Text(a), Text(b), Text(c)]
  }

  lemma {:induction false} PlainFlags(a: string, b: string, c: string)
    requires Plain(a) && Plain(b) && Plain(c)
    ensures AllClean(Flags(a, b, c))
  {
    PlainFlag(a);
    PlainFlag(b);
    PlainFlag(c);
  }

  function KeyVals(a: string, x: string, b: string, y: string): seq<Setting> {
    [Text(a + "=" + x), Text(b + "=" + y)]
  }

  lemma {:induction false} PlainKeyVals(a: string, x: string, b: string, y: string)
    requires Plain(a) && Plain(x) && Plain(b) && Plain(y)
    ensures AllClean(KeyVals(a, x, b, y))
  {
    PlainSetting(a, x);
    PlainSetting(b, y);
  }

  lemma {:induction false} PlainValue(key: string, val: string)
    requires Plain(key) && Plain(val)
    ensures AllClean([SetVal(key, val)]) && AllClean([SetTrue(key)]) && AllClean([Text(key + "=" + val)])
    ensures AllClean([Text(key)])
  {
    PlainSetting(key, val);
    PlainFlag(key);
  }

  lemma {:induction false} CleanConcat(ps: seq<Setting>, qs: seq<Setting>)
    requires AllClean(ps) && AllClean(qs)
    ensures AllClean(ps + qs)
  {
  }

  // What add_defaults pushes, in order.
  const BootDefaults: seq<Setting> :=
    [Text("noapic")] + [Text("noacpi")] + [Text("reboot" + "=" + "k")] + [SetTrue("panic")]
  const MemoryDefaults: seq<Setting> := KeyVals("init_on_alloc", "0", "init_on_free", "0") + [SetVal("console", "hvc0")]
  const KeyboardDefaults: seq<Setting> := Flags("i8042.direct", "i8042.dumbkbd", "i8042.nopnp")
  const MouseDefaults: seq<Setting> := [Text("i8042.noaux")] + [Text("i8042.nomux")]
  const DeviceDefaults: seq<Setting> := [SetVal("iommu", "off")] + [Text("cryptomgr.notests")]
  const SoundDefaults: seq<Setting> := KeyVals("snd_intel8x0.inside_vm", "1", "snd_intel8x0.ac97_clock", "48000")
  const SerialDefaults: seq<Setting> := [SetVal("8250.nr_uarts", "0")]

  const DefaultSettings: seq<Setting> :=
    BootDefaults + MemoryDefaults + (KeyboardDefaults + MouseDefaults) + DeviceDefaults + (SoundDefaults + SerialDefaults)

  lemma {:induction false} BootClean()
    ensures AllClean(BootDefaults)
  {
    PlainValue("noapic", "1");
    PlainValue("noacpi", "1");
    PlainValue("reboot", "k");
    PlainValue("panic", "1");
    CleanConcat([Text("noapic")], [Text("noacpi")]);
    CleanConcat([Text("noapic")] + [Text("noacpi")], [Text("reboot" + "=" + "k")]);
    CleanConcat([Text("noapic")] + [Text("noacpi")] + [Text("reboot" + "=" + "k")], [SetTrue("panic")]);
  }

  lemma {:induction false} MemoryClean()
    ensures AllClean(MemoryDefaults)
  {
    PlainKeyVals("init_on_alloc", "0", "init_on_free", "0");
    PlainValue("console", "hvc0");
    CleanConcat(KeyVals("init_on_alloc", "0", "init_on_free", "0"), [SetVal("console", "hvc0")]);
  }

  lemma {:induction false} KeyboardClean()
    ensures AllClean(KeyboardDefaults)
  {
    PlainFlags("i8042.direct", "i8042.dumbkbd", "i8042.nopnp");
  }

  lemma {:induction false} MouseClean()
    ensures AllClean(MouseDefaults)
  {
    PlainValue("i8042.noaux", "1");
    PlainValue("i8042.nomux", "1");
    CleanConcat([Text("i8042.noaux")], [Text("i8042.nomux")]);
  }

  lemma {:induction false} DeviceClean()
    ensures AllClean(DeviceDefaults)
  {
    PlainValue("iommu", "off");
    PlainValue("cryptomgr.notests", "1");
    CleanConcat([SetVal("iommu", "off")], [Text("cryptomgr.notests")]);
  }

  lemma {:induction false} SoundClean()
    ensures AllClean(SoundDefaults)
  {
    PlainKeyVals("snd_intel8x0.inside_vm", "1", "snd_intel8x0.ac97_clock", "48000");
  }

  lemma {:induction false} SerialClean()
    ensures AllClean(SerialDefaults)
  {
    PlainValue("8250.nr_uarts", "0");
  }

  /** Every default push is clean, so the guest parses the default line as it was meant. */
  lemma {:induction false} DefaultLineIsFaithful()
    ensures AllClean(DefaultSettings) && Parse(Print(DefaultSettings)) == LastPushes(DefaultSettings)
  {
    assert AllClean(BootDefaults + MemoryDefaults) by {
      BootClean();
      MemoryClean();
      CleanConcat(BootDefaults, MemoryDefaults);
    }
    assert AllClean(KeyboardDefaults + MouseDefaults) by {
      KeyboardClean();
      MouseClean();
      CleanConcat(KeyboardDefaults, MouseDefaults);
    }
    assert AllClean(SoundDefaults + SerialDefaults) by {
      SoundClean();
      SerialClean();
      CleanConcat(SoundDefaults, SerialDefaults);
    }
    DeviceClean();
    CleanConcat(BootDefaults + MemoryDefaults, KeyboardDefaults + MouseDefaults);
    CleanConcat(BootDefaults + MemoryDefaults + (KeyboardDefaults + MouseDefaults), DeviceDefaults);
    CleanConcat(BootDefaults + MemoryDefaults + (KeyboardDefaults + MouseDefaults) + DeviceDefaults,
                SoundDefaults + SerialDefaults);
    CleanRoundTrip(DefaultSettings);
  }

  // ----- the code -----

  class KernelCmdLine {
    var buffer: string
    ghost var settings: seq<Setting>

    ghost predicate Valid()
      reads this
    {
      buffer == Print(settings)
    }

    constructor ()
      ensures Valid() && settings == []
    {
      buffer, settings := "", [];
    }

    method PushText(option: string)
      modifies this`buffer
      ensures buffer == Pushed(old(buffer), option)
    {
      if buffer != "" {
        buffer := buffer + " ";
      }
      buffer := buffer + option;
    }

    method Push(option: string)
      requires Valid()
      modifies this
      ensures Valid() && settings == old(settings) + [Text(option)]
    {
      PushText(option);
      PrintOneMore(settings, Text(option));
      settings := settings + [Text(option)];
    }

    method PushSetTrue(flag: string)
      requires Valid()
      modifies this
      ensures Valid() && settings == old(settings) + [SetTrue(flag)]
    {
      PushText(flag + "=" + "1");
      PrintOneMore(settings, SetTrue(flag));
      settings := settings + [SetTrue(flag)];
    }

    method PushSetVal(name: string, val: string)
      requires Valid()
      modifies this
      ensures Valid() && settings == old(settings) + [SetVal(name, val)]
    {
      PushText(name + "=" + val);
      PrintOneMore(settings, SetVal(name, val));
      settings := settings + [SetVal(name, val)];
    }
  }

  /** CmdLine::parse */
  method ParseLine(line: string) returns (vars: Vars)
    ensures vars == Parse(line)
  {
    var words := Words(line);
    vars := map[];
    for i := 0 to |words|
      invariant vars == Bind(ParseWords(words)[..i])
    {
      var w := words[i];
      var eq := FirstEquals(w);
      if eq < |w| {
        vars := vars[w[..eq] := Some(TrimEquals(w[eq..]))];
      } else {
        vars := vars[w := None];
      }
      assert ParseWords(words)[..i + 1][..i] == ParseWords(words)[..i];
    }
    assert ParseWords(words)[..|words|] == ParseWords(words);
  }

  /** lookup: a key without a value and a missing key give the same answer. */
  function Lookup(vars: Vars, name: string): Option<string> {
    if name in vars then vars[name] else None
  }

  lemma {:induction false} LastPushesMore(ps: seq<Setting>, p: Setting)
    ensures LastPushes(ps + [p]) == LastPushes(ps)[Meaning(p).key := Meaning(p).value]
  {
    assert Meanings(ps + [p])[..|ps|] == Meanings(ps);
  }

  /** What the guest looks up is what the hypervisor pushed last, for clean pushes in any order. */
  lemma {:induction false} LookupLastPush(ps: seq<Setting>, p: Setting, name: string)
    requires AllClean(ps) && Clean(p)
    ensures Lookup(Parse(Print(ps + [p])), name)
         == if name == Meaning(p).key then Meaning(p).value else Lookup(Parse(Print(ps)), name)
  {
    CleanRoundTrip(ps + [p]);
    CleanRoundTrip(ps);
    LastPushesMore(ps, p);
  }
}
