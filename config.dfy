/**
 * The relay's settings: the shape of the configuration file, the command
 * line, and how the process-wide configuration is built from them once
 * at start-up (file first, then the command-line topic on top).
 */
module Config {
  import opened Wrappers

  /** Source cluster settings. */
  datatype KafkaSrc = KafkaSrc(
    brokers: seq<string>,
    groupId: string,
    autoOffsetReset: string,
    enableAutoCommit: bool)

  /** Destination cluster settings. */
  datatype KafkaDst = KafkaDst(brokers: seq<string>)

  /** The whole configuration: the topic to mirror and both clusters. */
  datatype AppConfig = AppConfig(topic: string, src: KafkaSrc, dst: KafkaDst)

  /** The command line: the configuration file path and an optional topic override. */
  datatype Cli = Cli(cfgFilePath: string, topic: Option<string>)

  /** Why building the configuration aborted the process: the file did not parse. */
  datatype ConfigPanic = ParseError(cfgFilePath: string, reason: string)

  const DefaultCfgFilePath: string := "config.toml"

  /** The command line as parsed from its two options; the file path defaults to "config.toml". */
  function ParseCli(cfgFileArg: Option<string>, topicArg: Option<string>): (cli: Cli)
    ensures cfgFileArg.None? ==> cli.cfgFilePath == "config.toml"
    ensures cfgFileArg.Some? ==> cli.cfgFilePath == cfgFileArg.value
    ensures cli.topic == topicArg
  {
    Cli(if cfgFileArg.Some? then cfgFileArg.value else DefaultCfgFilePath, topicArg)
  }

  /**
   * Build the configuration: parse the file named on the command line
   * (`parseFile` stands for reading and extracting it), abort if that
   * fails, then let a topic given on the command line replace the file's.
   */
  method LoadConfig(cli: Cli, parseFile: string -> Result<AppConfig, string>) returns (r: Result<AppConfig, ConfigPanic>)
    ensures parseFile(cli.cfgFilePath).Failure? ==>
      r == Failure(ParseError(cli.cfgFilePath, parseFile(cli.cfgFilePath).error))
    ensures parseFile(cli.cfgFilePath).Success? ==> r.Success?
    ensures r.Success? ==>
      var parsed := parseFile(cli.cfgFilePath).value;
      && parseFile(cli.cfgFilePath).Success?
      && (cli.topic.Some? ==> r.value.topic == cli.topic.value)
      && (cli.topic.None? ==> r.value.topic == parsed.topic)
      && r.value.src == parsed.src
      && r.value.dst == parsed.dst
  {
    var cfg: AppConfig;
    match parseFile(cli.cfgFilePath) {
      case Success(c) => cfg := c;
      case Failure(err) => return Failure(ParseError(cli.cfgFilePath, err));
    }
    if cli.topic.Some? {
      cfg := cfg.(topic := cli.topic.value);
    }
    return Success(cfg);
  }
}
