/** Widget keys (utils/widget_keys.py): each dashboard module owns a key
    generator whose counter makes every key it hands out distinct, and a
    registry returns the generator of a module by name. */
module WidgetKeys {
  import opened Text

  const EnyeLower: char := '\U{F1}'
  const EAcuteLower: char := '\U{E9}'
  const OAcuteLower: char := '\U{F3}'

  /** The module name as the generator keeps it: lower-cased, spaces turned
      into underscores, the letter n with tilde turned into a plain n. */
  function CleanModuleName(name: string): (r: string)
    ensures ' ' !in r && EnyeLower !in r
  {
    var lowered := Lower(name);
    ReplaceCharKeepsOut(lowered, ' ', "_", {});
    var underscored := ReplaceAll(lowered, " ", "_");
    ReplaceCharKeepsOut(underscored, EnyeLower, "n", {' '});
    ReplaceAll(underscored, [EnyeLower], "n")
  }

  /** The description as it enters a key: lower-cased, spaces turned into
      underscores, colons removed and the accented letters n, e and o made
      plain. */
  function CleanDescription(description: string): (r: string)
    ensures ' ' !in r && ':' !in r && EnyeLower !in r && EAcuteLower !in r && OAcuteLower !in r
  {
    var s0 := Lower(description);
    ReplaceCharKeepsOut(s0, ' ', "_", {});
    var s1 := ReplaceAll(s0, " ", "_");
    ReplaceCharKeepsOut(s1, ':', "", {' '});
    var s2 := ReplaceAll(s1, ":", "");
    ReplaceCharKeepsOut(s2, EnyeLower, "n", {' ', ':'});
    var s3 := ReplaceAll(s2, [EnyeLower], "n");
    ReplaceCharKeepsOut(s3, EAcuteLower, "e", {' ', ':', EnyeLower});
    var s4 := ReplaceAll(s3, [EAcuteLower], "e");
    ReplaceCharKeepsOut(s4, OAcuteLower, "o", {' ', ':', EnyeLower, EAcuteLower});
    ReplaceAll(s4, [OAcuteLower], "o")
  }

  /** The key for the `n`-th call: module, widget type, the cleaned
      description when it is not empty, and the counter, joined by
      underscores. */
  function Key(moduleName: string, widgetType: string, cleanDescription: string, n: nat): (k: string)
    ensures var p := moduleName + "_" + widgetType + "_"; |p| < |k| && k[..|p|] == p
  {
    if cleanDescription != "" then moduleName + "_" + widgetType + "_" + cleanDescription + "_" + NatToString(n)
    else moduleName + "_" + widgetType + "_" + NatToString(n)
  }

  /** `k` ends with an underscore followed by the decimal digits of `n`. */
  predicate CounterSuffix(k: string, n: nat) {
    var t := "_" + NatToString(n);
    |t| <= |k| && k[|k| - |t|..] == t
  }

  /** Every key ends with `_` and its counter. */
  lemma KeyEndsWithCounter(moduleName: string, widgetType: string, cleanDescription: string, n: nat)
    ensures CounterSuffix(Key(moduleName, widgetType, cleanDescription, n), n)
  {
    var k := Key(moduleName, widgetType, cleanDescription, n);
    var t := "_" + NatToString(n);
    var prefix := if cleanDescription != "" then moduleName + "_" + widgetType + "_" + cleanDescription
                  else moduleName + "_" + widgetType;
    assert k == prefix + t;
    assert k[|k| - |t|..] == t;
  }

  /** Position of the last `c` in `s`, or -1. */
  function LastIndexOf(s: string, c: char): (i: int)
    ensures -1 <= i < |s|
  {
    if s == [] then -1
    else if s[|s| - 1] == c then |s| - 1
    else LastIndexOf(s[..|s| - 1], c)
  }

  lemma {:induction false} LastIndexOfAppend(p: string, c: char, q: string)
    requires c !in q
    ensures LastIndexOf(p + [c] + q, c) == |p|
  {
    if q != [] {
      var s := p + [c] + q;
      assert s[..|s| - 1] == p + [c] + q[..|q| - 1];
      assert s[|s| - 1] == q[|q| - 1];
      LastIndexOfAppend(p, c, q[..|q| - 1]);
    }
  }

  /** The underscore before the counter is the last underscore of the key. */
  lemma CounterSuffixPosition(k: string, n: nat)
    requires CounterSuffix(k, n)
    ensures LastIndexOf(k, '_') == |k| - |NatToString(n)| - 1
  {
    var digits := NatToString(n);
    var p := k[..|k| - |digits| - 1];
    assert k == p + ['_'] + digits;
    LastIndexOfAppend(p, '_', digits);
  }

  /** A key carries one counter only: the digits after its last underscore. */
  lemma {:induction false} CounterSuffixUnique(k: string, a: nat, b: nat)
    requires CounterSuffix(k, a) && CounterSuffix(k, b)
    ensures a == b
  {
    CounterSuffixPosition(k, a);
    CounterSuffixPosition(k, b);
    var da, db := NatToString(a), NatToString(b);
    assert da == k[|k| - |da|..] == db;
    NatToStringInjective(a, b);
  }

  /** Keys built for different counters differ, whatever the module, widget
      type and description. */
  lemma KeysDiffer(m1: string, w1: string, d1: string, n1: nat, m2: string, w2: string, d2: string, n2: nat)
    requires n1 != n2
    ensures Key(m1, w1, d1, n1) != Key(m2, w2, d2, n2)
  {
    KeyEndsWithCounter(m1, w1, d1, n1);
    KeyEndsWithCounter(m2, w2, d2, n2);
    if Key(m1, w1, d1, n1) == Key(m2, w2, d2, n2) {
      CounterSuffixUnique(Key(m1, w1, d1, n1), n1, n2);
    }
  }

  /** `WidgetKeyGenerator`: the cleaned module name and the number of keys
      handed out so far; `issued` records those keys. */
  class KeyGenerator {
    const moduleName: string
    var counter: nat
    ghost var issued: seq<string>

    /** The `i`-th key handed out ends with `_` and `i + 1`. */
    ghost predicate Valid()
      reads this
    {
      |issued| == counter && forall i | 0 <= i < |issued| :: CounterSuffix(issued[i], i + 1)
    }

    constructor(name: string)
      ensures moduleName == CleanModuleName(name) && counter == 0 && issued == []
      ensures Valid()
    {
      moduleName := CleanModuleName(name);
      counter := 0;
      issued := [];
    }

    /** Counts the call, then builds the key from the module name, the widget
        type, the cleaned description and the new counter. The key differs
        from every key handed out before. */
    method GetKey(widgetType: string, description: string) returns (key: string)
      requires Valid()
      modifies this
      ensures Valid()
      ensures counter == old(counter) + 1
      ensures key == Key(moduleName, widgetType, CleanDescription(description), counter)
      ensures key !in old(issued)
      ensures issued == old(issued) + [key]
    {
      counter := counter + 1;
      var cleanDescription := CleanDescription(description);
      if cleanDescription != "" {
        key := moduleName + "_" + widgetType + "_" + cleanDescription + "_" + NatToString(counter);
      } else {
        key := moduleName + "_" + widgetType + "_" + NatToString(counter);
      }
      KeyEndsWithCounter(moduleName, widgetType, cleanDescription, counter);
      forall i | 0 <= i < |issued| ensures issued[i] != key {
        if issued[i] == key {
          CounterSuffixUnique(key, i + 1, counter);
        }
      }
      issued := issued + [key];
    }

    /** The last key handed out is the key of type `widgetType` for
        `description` at the current counter. */
    ghost predicate Issued(key: string, widgetType: string, description: string)
      reads this
    {
      key == Key(moduleName, widgetType, CleanDescription(description), counter) &&
      issued != [] && issued[|issued| - 1] == key
    }

    method CheckboxKey(description: string) returns (key: string)
      requires Valid()
      modifies this
      ensures Valid() && counter == old(counter) + 1 && key !in old(issued)
      ensures issued == old(issued) + [key] && Issued(key, "checkbox", description)
    {
      key := GetKey("checkbox", description);
    }

    method SelectboxKey(description: string) returns (key: string)
      requires Valid()
      modifies this
      ensures Valid() && counter == old(counter) + 1 && key !in old(issued)
      ensures issued == old(issued) + [key] && Issued(key, "selectbox", description)
    {
      key := GetKey("selectbox", description);
    }

    method MultiselectKey(description: string) returns (key: string)
      requires Valid()
      modifies this
      ensures Valid() && counter == old(counter) + 1 && key !in old(issued)
      ensures issued == old(issued) + [key] && Issued(key, "multiselect", description)
    {
      key := GetKey("multiselect", description);
    }

    method SliderKey(description: string) returns (key: string)
      requires Valid()
      modifies this
      ensures Valid() && counter == old(counter) + 1 && key !in old(issued)
      ensures issued == old(issued) + [key] && Issued(key, "slider", description)
    {
      key := GetKey("slider", description);
    }

    method RadioKey(description: string) returns (key: string)
      requires Valid()
      modifies this
      ensures Valid() && counter == old(counter) + 1 && key !in old(issued)
      ensures issued == old(issued) + [key] && Issued(key, "radio", description)
    {
      key := GetKey("radio", description);
    }

    method TextInputKey(description: string) returns (key: string)
      requires Valid()
      modifies this
      ensures Valid() && counter == old(counter) + 1 && key !in old(issued)
      ensures issued == old(issued) + [key] && Issued(key, "text_input", description)
    {
      key := GetKey("text_input", description);
    }

    method DateInputKey(description: string) returns (key: string)
      requires Valid()
      modifies this
      ensures Valid() && counter == old(counter) + 1 && key !in old(issued)
      ensures issued == old(issued) + [key] && Issued(key, "date_input", description)
    {
      key := GetKey("date_input", description);
    }

    method ButtonKey(description: string) returns (key: string)
      requires Valid()
      modifies this
      ensures Valid() && counter == old(counter) + 1 && key !in old(issued)
      ensures issued == old(issued) + [key] && Issued(key, "button", description)
    {
      key := GetKey("button", description);
    }

    method DownloadButtonKey(description: string) returns (key: string)
      requires Valid()
      modifies this
      ensures Valid() && counter == old(counter) + 1 && key !in old(issued)
      ensures issued == old(issued) + [key] && Issued(key, "download_button", description)
    {
      key := GetKey("download_button", description);
    }
  }

  // ---------------------------------------------------------------------
  // get_module_keys

  /** The names of the shared generators, `AVERIAS_KEYS` to `APP_KEYS`. */
  const GeneratorNames: seq<string> :=
    ["averias", "desempeno", "configuration", "provision", "disponibilidad", "calidad", "proyectos", "app"]

  /** The lower-cased names `get_module_keys` knows, each with the position
      in `GeneratorNames` of the shared generator it returns. */
  const KnownModules: map<string, nat> := map[
    "averias" := 0,
    "desempeno" := 1,
    "desempe\U{F1}o" := 1,
    "configuration" := 2,
    "provision" := 3,
    "disponibilidad" := 4,
    "calidad" := 5,
    "proyectos" := 6,
    "app" := 7
  ]

  /** The shared generator a module name selects, looked up lower-cased;
      none for an unknown module. */
  function SharedGenerator(moduleName: string): (r: Option<nat>)
    ensures r.Some? <==> Lower(moduleName) in KnownModules
    ensures r.Some? ==> r.value < |GeneratorNames|
  {
    var key := Lower(moduleName);
    if key in KnownModules then Some(KnownModules[key]) else None
  }

  /** The two spellings of "desempeño" share one generator, the one named
      "desempeno". */
  lemma DesempenoSpellingsShare()
    ensures SharedGenerator("desempe\U{F1}o") == SharedGenerator("desempeno") == Some(1)
    ensures GeneratorNames[1] == "desempeno"
  {
    assert Lower("desempe\U{F1}o") == "desempe\U{F1}o";
    assert Lower("desempeno") == "desempeno";
  }

  /** Every known name other than "desempeño" selects the generator of the
      same name. */
  lemma KnownNamesSelectTheirGenerator(name: string)
    requires name in KnownModules && name != "desempe\U{F1}o"
    ensures GeneratorNames[KnownModules[name]] == name
  {
  }

  /** Case does not matter to the lookup. */
  lemma SharedGeneratorIgnoresCase(a: string, b: string)
    requires Lower(a) == Lower(b)
    ensures SharedGenerator(a) == SharedGenerator(b)
  {
  }

  /** A name of lower-case letters and underscores is kept as it is. */
  lemma CleanPlainName(name: string)
    requires forall i | 0 <= i < |name| :: 'a' <= name[i] <= 'z' || name[i] == '_'
    ensures CleanModuleName(name) == name
  {
    assert Lower(name) == name;
    ReplaceCharAbsent(name, ' ', "_");
    ReplaceCharAbsent(name, EnyeLower, "n");
  }

  /** The shared generators' names are plain. */
  lemma GeneratorNamesPlain(k: nat)
    requires k < |GeneratorNames|
    ensures CleanModuleName(GeneratorNames[k]) == GeneratorNames[k]
  {
    CleanPlainName(GeneratorNames[k]);
  }

  /** A new generator for the `k`-th shared name, counter at zero. */
  method Fresh(k: nat) returns (g: KeyGenerator)
    requires k < |GeneratorNames|
    ensures fresh(g) && g.moduleName == GeneratorNames[k] && g.counter == 0 && g.issued == [] && g.Valid()
  {
    GeneratorNamesPlain(k);
    g := new KeyGenerator(GeneratorNames[k]);
  }

  /** The module-level generators, one per name of `GeneratorNames`, and
      the lookup over them. */
  class ModuleKeys {
    const generators: seq<KeyGenerator>

    constructor()
      ensures |generators| == |GeneratorNames|
      ensures forall k | 0 <= k < |generators| :: fresh(generators[k]) && generators[k].moduleName == GeneratorNames[k]
      ensures forall k | 0 <= k < |generators| :: generators[k].counter == 0 && generators[k].Valid()
    {
      var averias := Fresh(0);
      var desempeno := Fresh(1);
      var configuration := Fresh(2);
      var provision := Fresh(3);
      var disponibilidad := Fresh(4);
      var calidad := Fresh(5);
      var proyectos := Fresh(6);
      var app := Fresh(7);
      generators := [averias, desempeno, configuration, provision, disponibilidad, calidad, proyectos, app];
    }

    /** The shared generator of a known module; for any other name a new
        generator with its counter at zero. */
    method GetModuleKeys(moduleName: string) returns (g: KeyGenerator)
      requires |generators| == |GeneratorNames|
      ensures SharedGenerator(moduleName).Some? ==> g == generators[SharedGenerator(moduleName).value]
      ensures SharedGenerator(moduleName).None? ==>
        fresh(g) && g.moduleName == CleanModuleName(moduleName) && g.counter == 0 && g.Valid()
    {
      var key := Lower(moduleName);
      if key in KnownModules {
        g := generators[KnownModules[key]];
      } else {
        g := new KeyGenerator(moduleName);
      }
    }
  }
}
