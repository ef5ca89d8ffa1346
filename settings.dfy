/** The loaded `ConfigParser` the routine reads its table and column names from. */
module Settings {
  import opened Results

  /** Section name to option name to the option's raw string. */
  datatype Config = Config(sections: map<string, map<string, string>>)

  /**
   * `config.get(section, option)`: the option's string, or the exception
   * ConfigParser raises for a missing section or option. An option set to
   * the empty string is read successfully as "".
   */
  function Read(cfg: Config, section: string, option: string): (r: Result<string>)
    ensures r.Ok? <==> section in cfg.sections && option in cfg.sections[section]
    ensures r.Ok? ==> r.value == cfg.sections[section][option]
    ensures section !in cfg.sections ==> r == Raised(NoSectionError(section))
    ensures section in cfg.sections && option !in cfg.sections[section] ==> r == Raised(NoOptionError(option, section))
  {
    if section !in cfg.sections then Raised(NoSectionError(section))
    else if option !in cfg.sections[section] then Raised(NoOptionError(option, section))
    else Ok(cfg.sections[section][option])
  }
}
