/** The template engine object: its configuration and its assigned variables, the paths and
    the staleness rule `draw` uses, and the newline fix applied to freshly compiled code. */
module Engine {
  import opened Common

  /** The PHP values the configuration and the variables hold; an array maps keys to values. */
  datatype Value = Null | Bool(b: bool) | Int(i: int) | Str(s: string) | Arr(entries: map<string, Value>)

  /** The configuration an engine starts with. */
  function DefaultConfig(): (c: map<string, Value>)
    ensures c.Keys == {"charset", "tpl_dir", "cache_dir", "auto_escape", "remove_comments"}
  {
    map["charset" := Str("UTF-8"), "tpl_dir" := Str("templates/"), "cache_dir" := Str("cache/"),
        "auto_escape" := Bool(true), "remove_comments" := Bool(false)]
  }

  /** `isset`: the key is there and its value is not NULL. */
  predicate IsSet(m: map<string, Value>, k: string) {
    k in m && m[k] != Null
  }

  /** What `configure` makes of `config` given the entries of the argument. */
  function Configured(config: map<string, Value>, conf: map<string, Value>): map<string, Value> {
    map k | k in config :: if k in conf && IsSet(config, k) then conf[k] else config[k]
  }

  /** The result of a call that may end the script. */
  datatype Status = Ok | Died(message: string)

  /** The array key a non-array value stands for: PHP turns booleans into 0 and 1 and NULL
      into the empty string. */
  function KeyOf(v: Value): string {
    match v
    case Null => ""
    case Bool(b) => if b then "1" else "0"
    case Int(i) => IntToString(i)
    case Str(s) => s
    case Arr(_) => ""
  }

  /** What `assign` makes of the variables: an array is merged with PHP's `+`, its keys winning;
      anything else names a single variable. */
  function Assigned(vars: map<string, Value>, variable: Value, value: Value): map<string, Value> {
    if variable.Arr? then vars + variable.entries else vars[KeyOf(variable) := value]
  }

  // ---------------------------------------------------------------------------------------
  // Paths and staleness in `draw`

  /** PHP's string conversion of a configuration value. */
  function ToText(v: Value): string {
    match v
    case Null => ""
    case Bool(b) => if b then "1" else ""
    case Int(i) => IntToString(i)
    case Str(s) => s
    case Arr(_) => "Array"
  }

  function Setting(config: map<string, Value>, k: string): string {
    if k in config then ToText(config[k]) else ""
  }

  function TrimTrailingSlashes(p: string): (r: string)
    ensures |r| <= |p| && r == p[..|r|]
    ensures r == [] || r[|r| - 1] != '/'
  {
    if |p| > 0 && p[|p| - 1] == '/' then TrimTrailingSlashes(p[..|p| - 1]) else p
  }

  /** The part after the last `/`. */
  function AfterLastSlash(p: string): (r: string)
    ensures '/' !in r
    ensures |r| <= |p| && r == p[|p| - |r|..]
    ensures |r| < |p| ==> p[|p| - |r| - 1] == '/'
  {
    if |p| == 0 || p[|p| - 1] == '/' then "" else AfterLastSlash(p[..|p| - 1]) + [p[|p| - 1]]
  }

  /** `basename`: trailing slashes are dropped, then everything up to the last slash. */
  function Basename(p: string): string {
    AfterLastSlash(TrimTrailingSlashes(p))
  }

  function SourcePath(config: map<string, Value>, filePath: string): string {
    Setting(config, "tpl_dir") + Basename(filePath) + ".html"
  }

  function CachePath(config: map<string, Value>, filePath: string): string {
    Setting(config, "cache_dir") + Basename(filePath) + ".rtpl.php"
  }

  /** The compiled file is rebuilt when there is none (time 0) or it is older than the template. */
  predicate NeedsRecompile(fileTime: int, cachedTime: int) {
    cachedTime == 0 || cachedTime < fileTime
  }

  /** What `draw` goes on to do, given the two modification times (0 for a missing file). */
  datatype DrawStep = NotFound(message: string) | Rebuild(source: string, cache: string) | Reuse(cache: string)

  function Plan(config: map<string, Value>, filePath: string, fileTime: int, cachedTime: int): DrawStep {
    if fileTime == 0 then NotFound("Template " + Basename(filePath) + " not found!")
    else if NeedsRecompile(fileTime, cachedTime) then
      Rebuild(SourcePath(config, filePath), CachePath(config, filePath))
    else Reuse(CachePath(config, filePath))
  }

  /** The blank line put after every closing tag that ends a line, so that PHP's swallowing of
      the newline after `?>` does not join lines of the output. */
  function FixNewlines(html: string): string {
    ReplaceAll(html, "?>\n", "?>\n\n")
  }

  /** The inverse direction, for the round trip. */
  function UnfixNewlines(html: string): string {
    ReplaceAll(html, "?>\n\n", "?>\n")
  }

  // ---------------------------------------------------------------------------------------
  // The object

  class Tpl {
    var vars: map<string, Value>
    var config: map<string, Value>

    constructor()
      ensures vars == map[] && config == DefaultConfig()
    {
      vars := map[];
      config := DefaultConfig();
    }

    /** `configure`: a non-array ends the script; otherwise each entry whose key is already set
        overwrites it. */
    method Configure(myConf: Value) returns (status: Status)
      modifies this
      ensures !myConf.Arr? ==> status == Died("Invalid config") && config == old(config)
      ensures myConf.Arr? ==> status == Ok && config == Configured(old(config), myConf.entries)
      ensures vars == old(vars)
    {
      if !myConf.Arr? {
        return Died("Invalid config");
      }
      var conf := myConf.entries;
      ghost var start := config;
      var todo := conf.Keys;
      while todo != {}
        invariant todo <= conf.Keys
        invariant vars == old(vars)
        invariant config == map k | k in start ::
                    if k in conf && k !in todo && IsSet(start, k) then conf[k] else start[k]
        decreases todo
      {
        var my :| my in todo;
        if IsSet(config, my) {
          config := config[my := conf[my]];
        }
        todo := todo - {my};
      }
      status := Ok;
    }

    /** `assign`: an array is merged in, anything else names one variable. */
    method Assign(variable: Value, value: Value)
      modifies this
      ensures vars == Assigned(old(vars), variable, value)
      ensures config == old(config)
    {
      if variable.Arr? {
        vars := vars + variable.entries;
      } else {
        vars := vars[KeyOf(variable) := value];
      }
    }

    /** The path and staleness part of `draw`: the times of the template and of its compiled
        file are passed in. */
    method DrawPlan(filePath: string, fileTime: int, cachedTime: int) returns (step: DrawStep)
      ensures step == Plan(config, filePath, fileTime, cachedTime)
    {
      var fileName := Basename(filePath);
      var source := Setting(config, "tpl_dir") + fileName + ".html";
      var cached := Setting(config, "cache_dir") + fileName + ".rtpl.php";
      if fileTime == 0 {
        return NotFound("Template " + fileName + " not found!");
      }
      if cachedTime == 0 || cachedTime < fileTime {
        step := Rebuild(source, cached);
      } else {
        step := Reuse(cached);
      }
    }
  }
}
