/** The credential store in its own form: loops over slot indices that read, write and erase keys
    of the store. */
module CredentialStore {
  import M = CredentialModel
  import opened CredentialModel
  import opened Wrappers

  datatype Code = Done | InvalidArg

  class Storage {
    var nvs: Nvs

    constructor ()
      ensures nvs == map[]
    {
      nvs := map[];
    }

    method SaveCredentials(ssid: string, password: string) returns (code: Code)
      modifies this
      ensures nvs == M.Save(old(nvs), ssid, password)
      ensures code == if ssid == "" then InvalidArg else Done
    {
      if ssid == "" {
        return InvalidArg;
      }
      for i := 0 to SLOTS
        invariant nvs == old(nvs) && FindSsid(nvs, ssid, 0) == FindSsid(nvs, ssid, i)
      {
        if Read(nvs, Ssid(i), SSID_LEN) == Some(ssid) {
          nvs := nvs[Password(i) := password];
          return Done;
        }
      }
      for i := 0 to SLOTS
        invariant nvs == old(nvs) && FindEmpty(nvs, 0) == FindEmpty(nvs, i)
      {
        if Ssid(i) !in nvs {
          nvs := nvs[Ssid(i) := ssid];
          nvs := nvs[Password(i) := password];
          return Done;
        }
      }
      nvs := nvs - {Ssid(0)};
      nvs := nvs - {Password(0)};
      assert nvs == Erased(old(nvs), 0);
      ghost var start := nvs;
      for i := 1 to SLOTS
        invariant ShiftFrom(start, 1) == ShiftFrom(nvs, i)
      {
        var s := Read(nvs, Ssid(i), SSID_LEN);
        if s.Some? {
          var p := Read(nvs, Password(i), PASSWORD_LEN);
          if p.Some? {
            nvs := nvs[Ssid(i - 1) := s.value];
            nvs := nvs[Password(i - 1) := p.value];
          }
        }
      }
      nvs := nvs[Ssid(SLOTS - 1) := ssid];
      nvs := nvs[Password(SLOTS - 1) := password];
      return Done;
    }

    method GetSaved(index: int) returns (found: bool, ssid: string, password: string)
      ensures M.Saved(nvs, index) == if found then Some((ssid, password)) else None
    {
      found, ssid, password := false, "", "";
      if index < 0 || index >= SLOTS {
        return;
      }
      var s := Read(nvs, Ssid(index), SSID_LEN);
      if s == None {
        return;
      }
      var p := Read(nvs, Password(index), PASSWORD_LEN);
      if p == None {
        return;
      }
      return true, s.value, p.value;
    }

    method DeleteBySsid(name: string) returns (deleted: bool)
      modifies this
      ensures (nvs, deleted) == M.Delete(old(nvs), name)
    {
      deleted := false;
      if name == "" {
        return;
      }
      for i := 0 to SLOTS
        invariant nvs == old(nvs) && !deleted && FindSsid(nvs, name, 0) == FindSsid(nvs, name, i)
      {
        if Read(nvs, Ssid(i), SSID_LEN) == Some(name) {
          var hadPassword := Password(i) in nvs;
          nvs := nvs - {Ssid(i)};
          nvs := nvs - {Password(i)};
          assert nvs == Erased(old(nvs), i);
          return hadPassword;
        }
      }
    }

    method DeleteAll()
      modifies this
      ensures nvs == M.DeleteAll(old(nvs))
      ensures forall i :: 0 <= i < SLOTS ==> Ssid(i) !in nvs && Password(i) !in nvs
    {
      for i := 0 to SLOTS
        invariant nvs == if i == 0 then old(nvs) else if i == 1 then Erased(old(nvs), 0)
                         else if i == 2 then Erased(Erased(old(nvs), 0), 1) else M.DeleteAll(old(nvs))
      {
        ghost var before := nvs;
        nvs := nvs - {Ssid(i)};
        nvs := nvs - {Password(i)};
        assert nvs == Erased(before, i);
      }
    }
  }
}
