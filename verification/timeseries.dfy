/** `checkVectorLayerTimeseries`: the check that a layer has at least one field
    whose name carries a date. */
module Timeseries {
  import opened Wrappers
  import opened Sequences
  import opened VectorLayer
  import opened DatePattern
  import opened Extraction

  const NoTimeseriesMessage: string :=
    "<span style=\"color:red;\">Invalid Layer: Please select a vector or raster layer with valid timeseries data."

  /** A field name the date pattern matches. The check compiles the pattern with
      IGNORECASE; the only letter in the pattern is the optional `T`, and whether it
      is taken never decides whether the match succeeds, so the case-sensitive
      recognizer gives the same verdict. */
  predicate IsDateField(name: string) {
    MatchDate(name).Some?
  }

  /** `checkVectorLayerTimeseries`: the layer check first, its failure passed
      through unchanged; then success exactly when some field name matches the date
      pattern. */
  function CheckVectorLayerTimeseries(layer: Option<Layer>): (r: (bool, string))
    ensures !CheckVectorLayer(layer).0 ==> r == CheckVectorLayer(layer)
    ensures CheckVectorLayer(layer).0 ==>
      (r.0 <==> exists k :: 0 <= k < |layer.value.fields| && HasDateToken(layer.value.fields[k].name))
    ensures r.0 ==> r.1 == ""
    ensures CheckVectorLayer(layer).0 && !r.0 ==> r.1 == NoTimeseriesMessage
  {
    var (status, message) := CheckVectorLayer(layer);
    if !status then (status, message)
    else
      var names := GetVectorFields(layer.value);
      var k := FirstIndex(names, IsDateField);
      if k < |names| then
        (true, message)
      else
        assert forall j :: 0 <= j < |names| ==> !IsDateField(names[j]);
        (false, NoTimeseriesMessage)
  }

  /** The check and the extractor agree on which names carry a date: the check
      matches the name as it is, the extractor matches it lower-cased, and both
      readings of the extractor skip exactly the names the check does not count. */
  lemma DateFieldIsReadByExtractor(name: string)
    ensures IsDateField(name) <==> !ReadKeyAsWritten(name).NotDated?
    ensures IsDateField(name) <==> !ReadKey(name).NotDated?
  {
    HasDateTokenOfLower(name);
  }

  /** A layer that passes the timeseries check has a field whose values the
      extractor files under a timestamp or rejects, never one it skips. */
  lemma TimeseriesLayerFeedsExtractor(layer: Layer)
    requires CheckVectorLayerTimeseries(Some(layer)).0
    ensures exists k :: 0 <= k < |layer.fields| && !ReadKey(layer.fields[k].name).NotDated?
  {
    var k :| 0 <= k < |layer.fields| && HasDateToken(layer.fields[k].name);
    DateFieldIsReadByExtractor(layer.fields[k].name);
  }
}
