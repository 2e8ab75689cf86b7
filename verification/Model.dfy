/** The entities of a command file. What the file fixes is a value; what running the commands
    fills in is a field of an object. */
module Model {
  import opened Bytes
  import opened FieldParser
  import opened Verdict

  datatype CommandSpec = CommandSpec(
    cmd: Text,
    times: int,
    interval: int,
    location: seq<Text>,
    pipeModifier: Text,
    processResult: bool,
    testIDs: seq<int>)

  datatype Repro = Repro(times: int, postMortem: seq<CommandSpec>, stopWhenTriggered: bool)

  datatype Collect = Collect(stopOnError: bool, processResult: bool)

  class Pattern {
    const source: Text
    var regExp: Option<Regex>

    constructor (source: Text)
      ensures this.source == source && regExp.None?
    {
      this.source := source;
      regExp := None;
    }

    /** A compiled expression is the one the source text compiles to. */
    ghost predicate Consistent(lib: Lib)
      reads this
    {
      regExp.Some? ==> lib.Compile(source) == regExp
    }

    ghost predicate Compiled(lib: Lib)
      reads this
    {
      regExp.Some? && lib.Compile(source) == regExp
    }
  }

  class Test {
    const id: int
    const spec: TestSpec
    const pattern: Pattern?
    const ifTriggered: seq<CommandSpec>
    var valuesStore: Store

    constructor (id: int, spec: TestSpec, pattern: Pattern?, ifTriggered: seq<CommandSpec>)
      ensures this.id == id && this.spec == spec && this.pattern == pattern && this.ifTriggered == ifTriggered
      ensures valuesStore == map[]
    {
      this.id := id;
      this.spec := spec;
      this.pattern := pattern;
      this.ifTriggered := ifTriggered;
      valuesStore := map[];
    }

    /** The pattern object is the pattern of the command file, whether or not it is compiled yet. */
    ghost predicate Valid(lib: Lib)
      reads this, pattern
    {
      if pattern == null then spec.pattern.None?
      else spec.pattern == Some(pattern.source) && pattern.Consistent(lib)
    }

    ghost function Footprint(): (r: set<object>)
    {
      {this} + (if pattern == null then {} else {pattern})
    }
  }

  class CommandResult {
    var patternMatch: seq<Text>
    var triggeredTest: seq<int>

    constructor ()
      ensures patternMatch == [] && triggeredTest == []
    {
      patternMatch, triggeredTest := [], [];
    }
  }

  class Command {
    const spec: CommandSpec
    const patterns: seq<Pattern>
    var commandResult: CommandResult?

    constructor (spec: CommandSpec, patterns: seq<Pattern>)
      ensures this.spec == spec && this.patterns == patterns && commandResult == null
    {
      this.spec := spec;
      this.patterns := patterns;
      commandResult := null;
    }
  }
}
