/** `CacheMgt.ResetMode`: how a reset request is executed. */
module ResetModes {

  datatype ResetMode = Local | LocalAndBroadcast | JustBroadcast
  {
    /** Whether the caches of this process are invalidated. */
    predicate IsResetLocal(): (r: bool)
      ensures r <==> this != JustBroadcast
    {
      this == Local || this == LocalAndBroadcast
    }

    /** Whether the request is posted to other processes. */
    predicate IsBroadcast(): (r: bool)
      ensures r <==> this != Local
    {
      this == LocalAndBroadcast || this == JustBroadcast
    }
  }

  /** Every mode does at least one of the two things. */
  lemma EveryModeActs(mode: ResetMode)
    ensures mode.IsResetLocal() || mode.IsBroadcast()
  {
  }

  /** Only LOCAL_AND_BROADCAST does both; LOCAL only resets, JUST_BROADCAST only posts. */
  lemma ModeActions(mode: ResetMode)
    ensures mode.IsResetLocal() && mode.IsBroadcast() <==> mode == LocalAndBroadcast
    ensures mode.IsResetLocal() && !mode.IsBroadcast() <==> mode == Local
    ensures !mode.IsResetLocal() && mode.IsBroadcast() <==> mode == JustBroadcast
  {
  }
}
