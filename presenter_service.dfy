/** The live-presenter lookup: the reply of `/api/live-presenter` is mapped
    onto a `LivePresenter` with `||`-style defaults, and anything short of a
    successful reply with data gives the fixed auto-DJ presenter. */
module PresenterService {
  import opened Wrappers

  /** A JSON string member as JavaScript sees it: absent, `null`, or a string. */
  datatype JsString = Undefined | Null | Str(s: string)

  /** A JSON boolean member: absent, `null`, or a boolean. */
  datatype JsFlag = FlagUndefined | FlagNull | Flag(b: bool)

  /** A string member is truthy when it is a non-empty string. */
  predicate Truthy(v: JsString) {
    v.Str? && v.s != ""
  }

  /** `v || fallback` for a string member. */
  function OrElse(v: JsString, fallback: string): (r: string)
    ensures Truthy(v) ==> r == v.s
    ensures !Truthy(v) ==> r == fallback
  {
    if Truthy(v) then v.s else fallback
  }

  /** How a template literal prints the member. */
  function Interpolate(v: JsString): string {
    match v
    case Undefined => "undefined"
    case Null => "null"
    case Str(s) => s
  }

  /** The presenter record the backend returns in `data`. */
  datatype PresenterRecord = PresenterRecord(
    name: JsString,
    description: JsString,
    showName: JsString,
    photoUrl: JsString,
    isAutoDj: JsFlag)

  /** The outcome of the GET: an error (network, timeout, HTTP status) or a
      body with its `success` flag and its `data`, present or not. */
  datatype PresenterReply = RequestFailed | Body(success: bool, data: Option<PresenterRecord>)

  datatype LivePresenter = LivePresenter(
    name: string,
    description: string,
    showName: string,
    photoUrl: Option<string>,
    isAutoDJ: bool,
    endTime: Option<string>)

  /** The presenter shown when no live show is known. */
  const AUTO_DJ := LivePresenter(
    "DJ Cruise Control",
    "Full throttle tunes...",
    "Auto DJ",
    Some("https://trucksim.fm/uploads/DJ_Cruise_Control_62185ad8f6.png"),
    true,
    None)

  /** The show name: the record's own when truthy, otherwise "Auto DJ" for
      an auto-DJ record, otherwise "Live with " and the record's name as the
      template literal prints it (the raw member, not the defaulted name). */
  function ShowNameOf(data: PresenterRecord): (r: string)
    ensures r != ""
    ensures Truthy(data.showName) ==> r == data.showName.s
    ensures !Truthy(data.showName) && data.isAutoDj == Flag(true) ==> r == "Auto DJ"
    ensures !Truthy(data.showName) && data.isAutoDj != Flag(true) ==> r == "Live with " + Interpolate(data.name)
  {
    if Truthy(data.showName) then data.showName.s
    else if data.isAutoDj == Flag(true) then "Auto DJ"
    else "Live with " + Interpolate(data.name)
  }

  /** The object literal returned for a successful reply with data. */
  function MapPresenter(data: PresenterRecord): LivePresenter {
    LivePresenter(
      OrElse(data.name, "DJ Cruise Control"),
      OrElse(data.description, ""),
      ShowNameOf(data),
      if Truthy(data.photoUrl) then Some(data.photoUrl.s) else None,
      data.isAutoDj == Flag(true),
      None)
  }

  /** What every presenter the service hands out looks like: a non-empty
      name and show name, no end time, and a photo URL that is either absent
      or non-empty. */
  predicate Presentable(p: LivePresenter) {
    p.name != "" && p.showName != "" && p.endTime.None?
    && (p.photoUrl.Some? ==> p.photoUrl.value != "")
  }

  /** `getLivePresenter`: a successful reply carrying data is mapped; every
      other outcome, errors included, is exactly `AUTO_DJ`. The result is
      flagged auto-DJ exactly when it is the fallback or the record's flag
      is `true`. */
  function GetLivePresenter(reply: PresenterReply): (r: LivePresenter)
    ensures !(reply.Body? && reply.success && reply.data.Some?) ==> r == AUTO_DJ
    ensures reply.Body? && reply.success && reply.data.Some? ==> r == MapPresenter(reply.data.value)
    ensures Presentable(r)
    ensures r.isAutoDJ <==>
      !(reply.Body? && reply.success && reply.data.Some?) || reply.data.value.isAutoDj == Flag(true)
  {
    match reply
    case Body(true, Some(data)) => MapPresenter(data)
    case _ => AUTO_DJ
  }

  /** The record the backend would send to describe `p`. */
  function RecordOf(p: LivePresenter): PresenterRecord {
    PresenterRecord(
      Str(p.name),
      Str(p.description),
      Str(p.showName),
      match p.photoUrl case Some(u) => Str(u) case None => Null,
      Flag(p.isAutoDJ))
  }

  /** Mapping the record of a presentable presenter gives that presenter
      back: the defaults never override a value that is present. */
  lemma MapRecordOf(p: LivePresenter)
    requires Presentable(p)
    ensures MapPresenter(RecordOf(p)) == p
  {
  }

  /** Every mapped presenter is presentable, so mapping is stable: describing
      a mapped presenter and mapping again changes nothing. */
  lemma MapPresenterStable(data: PresenterRecord)
    ensures Presentable(MapPresenter(data))
    ensures MapPresenter(RecordOf(MapPresenter(data))) == MapPresenter(data)
  {
    MapRecordOf(MapPresenter(data));
  }

  /** A backend that reports the auto-DJ itself yields the same presenter as
      the fallback. */
  lemma AutoDjRecordMatchesFallback()
    ensures GetLivePresenter(Body(true, Some(RecordOf(AUTO_DJ)))) == AUTO_DJ
  {
    MapRecordOf(AUTO_DJ);
  }

  /** A record with no name and no show name, not flagged auto-DJ, is shown
      as "DJ Cruise Control" but its show name reads "Live with undefined"
      (or "Live with null", or "Live with " for an empty name): the show
      name is built from the raw member. */
  lemma ShowNameUsesRawName(data: PresenterRecord)
    requires !Truthy(data.name) && !Truthy(data.showName) && data.isAutoDj != Flag(true)
    ensures MapPresenter(data).name == "DJ Cruise Control"
    ensures data.name == Undefined ==> MapPresenter(data).showName == "Live with undefined"
    ensures data.name == Null ==> MapPresenter(data).showName == "Live with null"
    ensures data.name == Str("") ==> MapPresenter(data).showName == "Live with "
  {
  }
}
