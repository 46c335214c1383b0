/**
 The compose and env file names a stack row can hold: what the scanner registers
 from a folder, what a create writes, and the env file recorded later.
 */
module StackNames {

  function TrimPrefix(s: string, prefix: string): string {
    if prefix <= s then s[|prefix|..] else s
  }

  predicate EndsWith(s: string, suffix: string) {
    |suffix| <= |s| && s[|s| - |suffix|..] == suffix
  }

  function TrimSuffix(s: string, suffix: string): string {
    if EndsWith(s, suffix) then s[..|s| - |suffix|] else s
  }

  /** filepath.Match of one name against prefix*suffix; the star crosses no separator. */
  predicate Matches(name: string, prefix: string, suffix: string) {
    && |prefix| + |suffix| <= |name| && prefix <= name && EndsWith(name, suffix)
    && '/' !in name[|prefix|..|name| - |suffix|]
  }

  /** composeFilePatterns */
  predicate IsComposeFileName(name: string) {
    || Matches(name, "compose", ".yaml") || Matches(name, "compose", ".yml")
    || Matches(name, "docker-compose", ".yaml") || Matches(name, "docker-compose", ".yml")
  }

  /** The file names of a folder that the scanner makes a stack of. */
  predicate Registers(name: string) {
    IsComposeFileName(name) && !("." <= name) && !EndsWith(name, ".override.yaml") && !EndsWith(name, ".override.yml")
  }

  function ExtractStackName(filename: string): string {
    var name := TrimSuffix(TrimSuffix(filename, ".yaml"), ".yml");
    if name == "compose" || name == "docker-compose" then "default"
    else
      var rest := TrimPrefix(TrimPrefix(name, "compose."), "docker-compose.");
      if rest == "" then "default" else rest
  }

  /** The name, unless the file is known to be absent. */
  function EnvFileIfPresent(absent: set<string>, name: string): string {
    if name in absent then "" else name
  }

  function DetermineEnvFile(absent: set<string>, stackName: string): string {
    if stackName != "default" && EnvFileIfPresent(absent, ".env." + stackName) != "" then ".env." + stackName
    else EnvFileIfPresent(absent, ".env")
  }

  /** The part of a file name between its two ends is the stack's name. */
  lemma NameInTheMiddle(name: string, suffix: string)
    requires name != "" && name != "yml" && !EndsWith(name, ".yml") && !("docker-compose." <= name)
    requires suffix == ".yaml" || suffix == ".yml"
    ensures ExtractStackName("compose." + name + suffix) == name
    ensures ExtractStackName("docker-compose." + name + suffix) == name
  {
    NameAlone("compose.", name, suffix);
    NameAlone("docker-compose.", name, suffix);
    PrefixesOff(name);
  }

  lemma PrefixesOff(name: string)
    requires name != "" && !("docker-compose." <= name)
    ensures TrimPrefix(TrimPrefix("compose." + name, "compose."), "docker-compose.") == name
    ensures TrimPrefix(TrimPrefix("docker-compose." + name, "compose."), "docker-compose.") == name
    ensures "compose." + name != "compose" && "compose." + name != "docker-compose"
    ensures "docker-compose." + name != "compose" && "docker-compose." + name != "docker-compose"
  {
    var short, long := "compose." + name, "docker-compose." + name;
    assert "compose." <= short && short[8..] == name && short[0] == 'c';
    assert "docker-compose." <= long && long[15..] == name && long[0] == 'd';
    assert "compose."[0] == 'c' && |short| > 8 && |long| > 15;
  }

  /** The unnamed files are the default stack's. */
  lemma DefaultNames()
    ensures ExtractStackName("compose.yaml") == "default" && ExtractStackName("docker-compose.yml") == "default"
  {
    assert "compose.yaml"[7..] == ".yaml" && "compose.yaml"[..7] == "compose";
    assert "docker-compose.yml"[14..] == ".yml" && "docker-compose.yml"[..14] == "docker-compose";
    assert "docker-compose.yml"[13..][0] == 'e' && "compose"[3..] == "pose";
  }

  /** Override files make no stack, whatever they begin with. */
  lemma OverridesAreSkipped(name: string)
    ensures !Registers(name + ".override.yaml") && !Registers(name + ".override.yml")
  {
    assert (name + ".override.yaml")[|name|..] == ".override.yaml";
    assert (name + ".override.yml")[|name|..] == ".override.yml";
  }

  /** The default compose file makes one. */
  lemma DefaultRegisters()
    ensures Registers("compose.yaml")
  {
    assert "compose.yaml"[7..] == ".yaml";
    assert "compose.yaml"[0] == 'c' && |"compose.yaml"| == 12;
  }

  lemma TailAfterDot(prefix: string, name: string)
    requires prefix != "" && prefix[|prefix| - 1] == '.' && name != ""
    ensures EndsWith(prefix + name, ".yml") ==> EndsWith(name, ".yml") || name == "yml"
  {
    var bare := prefix + name;
    if EndsWith(bare, ".yml") {
      var tail := bare[|bare| - 4..];
      assert tail[0] == '.' && tail[1] == 'y' && tail[2] == 'm' && tail[3] == 'l';
      assert |name| < 4 ==> tail[3 - |name|] == '.';
      assert |name| >= 4 ==> name[|name| - 4..] == tail;
      assert |name| == 3 ==> name == tail[1..];
    }
  }

  lemma NameAlone(prefix: string, name: string, suffix: string)
    requires name != "" && name != "yml" && !EndsWith(name, ".yml") && (suffix == ".yaml" || suffix == ".yml")
    requires prefix == "compose." || prefix == "docker-compose."
    ensures TrimSuffix(TrimSuffix(prefix + name + suffix, ".yaml"), ".yml") == prefix + name
  {
    var whole, bare := prefix + name + suffix, prefix + name;
    assert whole[|whole| - |suffix|..] == suffix && whole[..|whole| - |suffix|] == bare;
    TailAfterDot(prefix, name);
    if suffix == ".yml" {
      assert whole[|whole| - 4] == suffix[0] && whole[|whole| - 5..][1] == whole[|whole| - 4] && ".yaml"[1] == 'y';
    }
  }

  /** A named stack takes its own env file if that is there, and else the default one if that is. */
  lemma EnvFileChosen(absent: set<string>, name: string)
    ensures name != "default" && ".env." + name !in absent ==> DetermineEnvFile(absent, name) == ".env." + name
    ensures name == "default" || ".env." + name in absent ==>
      DetermineEnvFile(absent, name) == if ".env" in absent then "" else ".env"
  {
  }

  /** No env file, the default one, or a named stack's own. */
  predicate IsEnvFileName(name: string) {
    name == "" || name == ".env" || (".env." <= name && |name| > 5 && '/' !in name)
  }

  /** The names a create writes, and the one recorded later. */
  lemma CreatedNames()
    ensures IsComposeFileName("compose.yaml") && IsEnvFileName("") && IsEnvFileName(".env")
  {
    assert Matches("compose.yaml", "compose", ".yaml");
  }

  lemma ComposeNameHasNoSeparator(name: string)
    requires IsComposeFileName(name)
    ensures '/' !in name
  {
    forall i | 0 <= i < |name| ensures name[i] != '/' {
      if Matches(name, "compose", ".yaml") { SeparatorFree(name, "compose", ".yaml", i); }
      else if Matches(name, "compose", ".yml") { SeparatorFree(name, "compose", ".yml", i); }
      else if Matches(name, "docker-compose", ".yaml") { SeparatorFree(name, "docker-compose", ".yaml", i); }
      else { SeparatorFree(name, "docker-compose", ".yml", i); }
    }
  }

  lemma SeparatorFree(name: string, prefix: string, suffix: string, i: nat)
    requires Matches(name, prefix, suffix) && i < |name| && '/' !in prefix && '/' !in suffix
    ensures name[i] != '/'
  {
    if i < |prefix| {
      assert name[i] == prefix[i];
    } else if i < |name| - |suffix| {
      assert name[i] == name[|prefix|..|name| - |suffix|][i - |prefix|];
    } else {
      assert name[i] == suffix[i - (|name| - |suffix|)];
    }
  }

  lemma TrimAddsNothing(s: string, affix: string, c: char)
    requires c !in s
    ensures c !in TrimPrefix(s, affix) && c !in TrimSuffix(s, affix)
  {
  }

  lemma ExtractedHasNoSeparator(filename: string)
    requires '/' !in filename
    ensures '/' !in ExtractStackName(filename) && ExtractStackName(filename) != ""
  {
    hide TrimPrefix, TrimSuffix;
    var bare := TrimSuffix(filename, ".yaml");
    TrimAddsNothing(filename, ".yaml", '/');
    TrimAddsNothing(bare, ".yml", '/');
    var name := TrimSuffix(bare, ".yml");
    TrimAddsNothing(name, "compose.", '/');
    TrimAddsNothing(TrimPrefix(name, "compose."), "docker-compose.", '/');
  }

  /** Whatever the scanner sees in the folder, the names it records are a compose file's and an env file's. */
  lemma ScannedNames(filename: string, absent: set<string>)
    requires Registers(filename)
    ensures IsComposeFileName(filename) && IsEnvFileName(DetermineEnvFile(absent, ExtractStackName(filename)))
  {
    ComposeNameHasNoSeparator(filename);
    ExtractedHasNoSeparator(filename);
    var name := ExtractStackName(filename);
    assert ".env." <= ".env." + name;
  }

  /** No compose file's name is an env file's, and each is one path component. */
  lemma RolesNeverCross(compose: string, env: string)
    requires IsComposeFileName(compose) && IsEnvFileName(env)
    ensures compose != env && compose != "" && compose != "." && compose != ".." && env != "." && env != ".."
    ensures '/' !in compose && '/' !in env
  {
    ComposeNameHasNoSeparator(compose);
    assert compose[0] == 'c' || compose[0] == 'd';
    assert env != "" ==> env[0] == '.' && |env| > 2;
  }
}
