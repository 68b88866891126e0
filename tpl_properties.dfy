/** What the engine object promises about its configuration, its variables, the paths `draw`
    builds, the staleness rule and the newline fix. */
module EngineProperties {
  import opened Common
  import opened Engine

  // ---------------------------------------------------------------------------------------
  // configure

  /** No key is added: an unknown key in the argument is ignored. */
  lemma ConfigureKeepsKeys(config: map<string, Value>, conf: map<string, Value>)
    ensures Configured(config, conf).Keys == config.Keys
  {
  }

  /** A key that is set is overwritten by the argument's value. */
  lemma ConfigureOverwrites(config: map<string, Value>, conf: map<string, Value>, k: string)
    requires IsSet(config, k) && k in conf
    ensures Configured(config, conf)[k] == conf[k]
  {
  }

  /** Every other entry is left as it was. */
  lemma ConfigureLeavesOthers(config: map<string, Value>, conf: map<string, Value>, k: string)
    requires k in config && (k !in conf || !IsSet(config, k))
    ensures Configured(config, conf)[k] == config[k]
  {
  }

  /** Configuring twice with the same argument is configuring once. */
  lemma ConfigureIdempotent(config: map<string, Value>, conf: map<string, Value>)
    ensures Configured(Configured(config, conf), conf) == Configured(config, conf)
  {
    var once := Configured(config, conf);
    forall k | k in once
      ensures Configured(once, conf)[k] == once[k]
    {
      if k in conf && IsSet(config, k) && conf[k] != Null {
        assert IsSet(once, k);
      }
    }
  }

  /** `isset` is false for NULL, so a key once configured to NULL can never be configured again. */
  lemma NullKeyFrozen(config: map<string, Value>, conf: map<string, Value>, later: map<string, Value>,
                      k: string)
    requires IsSet(config, k) && k in conf && conf[k] == Null
    ensures Configured(Configured(config, conf), later)[k] == Null
  {
  }

  /** Every default entry is set, so a fresh engine takes any of the five keys it is given. */
  lemma DefaultsOverwritable(conf: map<string, Value>, k: string)
    requires k in DefaultConfig() && k in conf
    ensures Configured(DefaultConfig(), conf)[k] == conf[k]
  {
  }

  // ---------------------------------------------------------------------------------------
  // assign

  /** An array's own keys win. */
  lemma AssignArrayWins(vars: map<string, Value>, entries: map<string, Value>, value: Value, k: string)
    requires k in entries
    ensures Assigned(vars, Arr(entries), value)[k] == entries[k]
  {
  }

  /** Variables the array does not mention are kept, and nothing else appears. */
  lemma AssignArrayKeeps(vars: map<string, Value>, entries: map<string, Value>, value: Value)
    ensures Assigned(vars, Arr(entries), value).Keys == vars.Keys + entries.Keys
    ensures forall k :: k in vars && k !in entries ==> Assigned(vars, Arr(entries), value)[k] == vars[k]
  {
  }

  /** Merging the same array twice is merging it once. */
  lemma AssignArrayIdempotent(vars: map<string, Value>, entries: map<string, Value>, value: Value)
    ensures Assigned(Assigned(vars, Arr(entries), value), Arr(entries), value) ==
            Assigned(vars, Arr(entries), value)
  {
  }

  /** A single variable gets the value and nothing else changes. */
  lemma AssignSingle(vars: map<string, Value>, name: string, value: Value)
    ensures Assigned(vars, Str(name), value)[name] == value
    ensures Assigned(vars, Str(name), value).Keys == vars.Keys + {name}
    ensures forall k :: k in vars && k != name ==> Assigned(vars, Str(name), value)[k] == vars[k]
  {
  }

  /** An integer name and its decimal string name the same variable, as PHP array keys do. */
  lemma IntegerNameIsDecimal(vars: map<string, Value>, i: int, value: Value)
    ensures Assigned(vars, Int(i), value) == Assigned(vars, Str(IntToString(i)), value)
  {
  }

  // ---------------------------------------------------------------------------------------
  // Paths

  /** A name without slashes is its own basename. */
  lemma BasenameOfName(n: string)
    requires '/' !in n
    ensures Basename(n) == n
  {
    AfterLastSlashOfName(n);
  }

  lemma AfterLastSlashOfName(n: string)
    requires '/' !in n
    ensures AfterLastSlash(n) == n
  {
    assert |AfterLastSlash(n)| == |n|;
  }

  /** The directories in front of a name are dropped. */
  lemma BasenameDropsDirectories(d: string, n: string)
    requires '/' !in n && n != ""
    ensures Basename(d + "/" + n) == n
  {
    var p := d + "/" + n;
    assert p[|p| - 1] == n[|n| - 1];
    assert n[|n| - 1] in n;
    AfterLastSlashAround(d, n);
  }

  lemma {:induction false} AfterLastSlashAround(d: string, n: string)
    requires '/' !in n
    ensures AfterLastSlash(d + "/" + n) == n
    decreases |n|
  {
    var p := d + "/" + n;
    if |n| == 0 {
      assert p[|p| - 1] == '/';
    } else {
      assert n[|n| - 1] in n;
      var init := n[..|n| - 1];
      assert '/' !in init by {
        forall j | 0 <= j < |init| ensures init[j] != '/' {
          assert init[j] == n[j];
        }
      }
      assert p[..|p| - 1] == d + "/" + init;
      AfterLastSlashAround(d, init);
      assert init + [n[|n| - 1]] == n;
    }
  }

  /** A trailing slash does not change the name. */
  lemma TrailingSlashIgnored(p: string)
    ensures Basename(p + "/") == Basename(p)
  {
    var q := p + "/";
    assert q[|q| - 1] == '/' && q[..|q| - 1] == p;
    assert TrimTrailingSlashes(q) == TrimTrailingSlashes(p);
  }

  /** Both paths are built from one name that has no slash in it: whatever directories the
      argument names, the template is looked up directly in the template directory and cached
      directly in the cache directory. */
  lemma PathsStayInDirectories(config: map<string, Value>, filePath: string)
    ensures var n := Basename(filePath);
            '/' !in n &&
            SourcePath(config, filePath) == Setting(config, "tpl_dir") + n + ".html" &&
            CachePath(config, filePath) == Setting(config, "cache_dir") + n + ".rtpl.php"
  {
  }

  /** With the default configuration, `draw("a/b/page")` reads `templates/page.html` and writes
      `cache/page.rtpl.php`. */
  lemma DefaultPaths()
    ensures SourcePath(DefaultConfig(), "a/b/page") == "templates/page.html"
    ensures CachePath(DefaultConfig(), "a/b/page") == "cache/page.rtpl.php"
  {
    PageBasename();
    assert Setting(DefaultConfig(), "tpl_dir") == "templates/";
    assert Setting(DefaultConfig(), "cache_dir") == "cache/";
  }

  lemma PageBasename()
    ensures Basename("a/b/page") == "page"
  {
    BasenameDropsDirectories("a/b", "page");
    assert "a/b" + "/" + "page" == "a/b/page";
  }

  // ---------------------------------------------------------------------------------------
  // Staleness

  /** A missing template is reported, whatever the cache holds. */
  lemma MissingTemplateReported(config: map<string, Value>, filePath: string, cachedTime: int)
    ensures Plan(config, filePath, 0, cachedTime) ==
            NotFound("Template " + Basename(filePath) + " not found!")
  {
  }

  /** An existing template is recompiled exactly when its cache is missing or strictly older. */
  lemma RebuildExactlyWhenStale(config: map<string, Value>, filePath: string, fileTime: int,
                                cachedTime: int)
    requires fileTime != 0
    ensures Plan(config, filePath, fileTime, cachedTime).Rebuild? <==>
            (cachedTime == 0 || cachedTime < fileTime)
    ensures Plan(config, filePath, fileTime, cachedTime).Reuse? <==>
            (cachedTime != 0 && cachedTime >= fileTime)
  {
  }

  // ---------------------------------------------------------------------------------------
  // The newline fix

  /** A prefix without `?` that the fixed text starts with, the original text starts with too:
      the fix only inserts newlines right after a `?>` followed by a newline. */
  lemma {:induction false} FixKeepsPrefix(t: string, w: string)
    requires '?' !in w
    ensures StartsWith(FixNewlines(t), w) ==> StartsWith(t, w)
    decreases |w|
  {
    if |w| > 0 && StartsWith(FixNewlines(t), w) {
      assert w[0] in w;
      if |t| < 3 {
        assert FixNewlines(t) == t;
      } else if t[..3] != "?>\n" {
        assert FixNewlines(t) == [t[0]] + FixNewlines(t[1..]);
        var w' := w[1..];
        assert '?' !in w' by {
          forall j | 0 <= j < |w'| ensures w'[j] != '?' {
            assert w'[j] == w[j + 1];
          }
        }
        assert FixNewlines(t[1..])[..|w'|] == FixNewlines(t)[1..|w|];
        FixKeepsPrefix(t[1..], w');
        assert t[..|w|] == [t[0]] + t[1..][..|w'|];
      }
    }
  }

  /** Taking the blank lines out again gives back the compiled text. */
  lemma {:induction false} FixRoundTrip(s: string)
    ensures UnfixNewlines(FixNewlines(s)) == s
    decreases |s|
  {
    if |s| < 3 {
      assert FixNewlines(s) == s;
    } else if s[..3] == "?>\n" {
      var rest := FixNewlines(s[3..]);
      assert FixNewlines(s) == "?>\n\n" + rest;
      var f := "?>\n\n" + rest;
      assert f[..4] == "?>\n\n" && f[4..] == rest;
      FixRoundTrip(s[3..]);
      assert s == "?>\n" + s[3..];
    } else {
      var rest := FixNewlines(s[1..]);
      assert FixNewlines(s) == [s[0]] + rest;
      var f := [s[0]] + rest;
      assert '?' !in ">\n\n";
      FixKeepsPrefix(s[1..], ">\n\n");
      assert s[..3] == [s[0]] + s[1..][..2];
      assert |f| >= 4 ==> f[..4] == [s[0]] + rest[..3];
      FixRoundTrip(s[1..]);
      assert f[1..] == rest;
      if |f| < 4 {
        assert UnfixNewlines(rest) == rest;
      } else {
        assert UnfixNewlines(f) == [s[0]] + UnfixNewlines(rest);
      }
      assert s == [s[0]] + s[1..];
    }
  }

  /** Text without a closing tag at the end of a line is left as it is. */
  lemma FixWithoutClosingTag(s: string)
    requires forall i: nat :: !OccursAt(s, "?>\n", i)
    ensures FixNewlines(s) == s
  {
    ReplaceAllAbsent(s, "?>\n", "?>\n\n");
  }
}
