/** The configuration of a path, as far as its life-cycle depends on it (conf/path.go). */
module PathConf {
  import opened Common

  /** The `source` setting: the words "publisher" and "redirect", or the address of a static source. */
  datatype SourceKind = FromPublisher | FromRedirect | FromStatic(address: string)

  /**
   * Optional settings are `None` where the configuration holds an empty string.
   * `cameraTuning` stands for the sixteen Raspberry Pi camera fields that can change while a source runs,
   * `rest` for all the fields no decision of the path depends on.
   */
  datatype Conf = Conf(
    name: string,
    regexp: Option<string>,
    source: SourceKind,
    sourceOnDemand: bool,
    sourceRedirect: string,
    maxReaders: int,
    fallback: Option<string>,
    overridePublisher: bool,
    runOnDemand: Option<string>,
    record: bool,
    cameraTuning: seq<real>,
    rest: seq<string>)
  {
    predicate HasStaticSource() {
      source.FromStatic?
    }

    predicate HasOnDemandStaticSource() {
      HasStaticSource() && sourceOnDemand
    }

    predicate HasOnDemandPublisher() {
      runOnDemand.Some?
    }

    /** What `validate` has refused before a path is ever created. */
    predicate Valid() {
      && (HasStaticSource() && regexp.Some? ==> sourceOnDemand)
      && (sourceOnDemand ==> !source.FromPublisher?)
      && (runOnDemand.Some? ==> source.FromPublisher?)
    }
  }

  /** `pathConfCanBeUpdated`: clone the old one, copy the fields that can change, compare. */
  predicate CanBeUpdated(oldConf: Conf, newConf: Conf) {
    newConf == oldConf.(record := newConf.record, cameraTuning := newConf.cameraTuning)
  }
}
