// arm64 CPU operations lookup (arch/arm64/kernel/cpu_ops.c): each CPU's
// enable method names one of the supported boot protocols, looked up in a
// NULL-terminated table that depends on whether ACPI is in use, and the
// result is recorded in the per-CPU cpu_ops array.

module CpuOps {
  import opened Base

  // A struct cpu_operations, identified by its name.
  datatype Operations = Operations(name: string)

  // The names the three protocols register under in Linux 4.6.
  const SpinTable := Operations("spin-table")
  const Psci := Operations("psci")
  const ParkingProtocol := Operations("parking-protocol")

  // dt_supported_cpu_ops, without its NULL terminator.
  const DtSupported: seq<Operations> := [SpinTable, Psci]

  // acpi_supported_cpu_ops; the parking protocol is present only when the
  // kernel is built with CONFIG_ARM64_ACPI_PARKING_PROTOCOL.
  function AcpiSupported(parking: bool): seq<Operations>
  {
    (if parking then [ParkingProtocol] else []) + [Psci]
  }

  // The first entry of the table whose name is `name`.
  function Lookup(table: seq<Operations>, name: string): Option<Operations>
  {
    if table == [] then None
    else if table[0].name == name then Some(table[0])
    else Lookup(table[1..], name)
  }

  lemma {:induction false} LookupFound(table: seq<Operations>, name: string)
    ensures Lookup(table, name).Some? ==>
              exists i :: 0 <= i < |table| && table[i] == Lookup(table, name).value && table[i].name == name &&
                          forall j :: 0 <= j < i ==> table[j].name != name
  {
    if table != [] && table[0].name != name {
      LookupFound(table[1..], name);
      if Lookup(table, name).Some? {
        var i :| 0 <= i < |table[1..]| && table[1..][i] == Lookup(table, name).value && table[1..][i].name == name &&
                 forall j :: 0 <= j < i ==> table[1..][j].name != name;
        assert table[i + 1] == table[1..][i];
        forall j | 0 <= j < i + 1
          ensures table[j].name != name
        {
          if j > 0 {
            assert table[j] == table[1..][j - 1];
          }
        }
      }
    }
  }

  lemma {:induction false} LookupMissing(table: seq<Operations>, name: string)
    ensures Lookup(table, name).None? <==> forall i :: 0 <= i < |table| ==> table[i].name != name
  {
    if table != [] {
      LookupMissing(table[1..], name);
      if table[0].name != name {
        forall i | 0 < i < |table|
          ensures table[i] == table[1..][i - 1]
        {
        }
      }
    }
  }

  // The supported protocols differ by name, so each name finds its own.
  lemma LookupKnown(parking: bool)
    ensures Lookup(DtSupported, "spin-table") == Some(SpinTable)
    ensures Lookup(DtSupported, "psci") == Some(Psci)
    ensures Lookup(DtSupported, "parking-protocol") == None
    ensures Lookup(AcpiSupported(parking), "psci") == Some(Psci)
    ensures Lookup(AcpiSupported(parking), "spin-table") == None
    ensures Lookup(AcpiSupported(parking), "parking-protocol") == (if parking then Some(ParkingProtocol) else None)
  {
    assert AcpiSupported(parking)[1..] == [Psci] || !parking;
    if !parking {
      assert AcpiSupported(parking) == [Psci];
    }
    assert DtSupported[1..] == [Psci];
    assert [Psci][1..] == [];
    // The names have different lengths, so no two are equal.
    assert |SpinTable.name| == 10 && |Psci.name| == 4 && |ParkingProtocol.name| == 16;
    LookupMissing(DtSupported, "parking-protocol");
    LookupMissing(AcpiSupported(parking), "spin-table");
  }

  class Machine {
    const nrCpus: nat
    const acpiDisabled: bool
    const parking: bool
    // cpu_ops[NR_CPUS]: None stands for a NULL entry.
    const cpuOps: array<Option<Operations>>

    constructor (n: nat, acpiDisabled: bool, parking: bool)
      ensures this.nrCpus == n && this.acpiDisabled == acpiDisabled && this.parking == parking
      ensures cpuOps.Length == n && fresh(cpuOps)
      ensures forall i :: 0 <= i < n ==> cpuOps[i] == None
    {
      this.nrCpus := n;
      this.acpiDisabled := acpiDisabled;
      this.parking := parking;
      cpuOps := new Option<Operations>[n](_ => None);
    }

    // The table searched: the device-tree list unless ACPI is in use.
    function Supported(): seq<Operations>
    {
      if acpiDisabled then DtSupported else AcpiSupported(parking)
    }

    // cpu_get_ops: walk the table until an entry's name matches.
    method GetOps(name: string) returns (r: Option<Operations>)
      ensures r == Lookup(Supported(), name)
    {
      var ops := Supported();
      var i := 0;
      while i < |ops|
        invariant i <= |ops|
        invariant Lookup(ops[i..], name) == Lookup(ops, name)
      {
        assert ops[i..][1..] == ops[i + 1..];
        if ops[i].name == name {
          return Some(ops[i]);
        }
        i := i + 1;
      }
      return None;
    }

    // cpu_read_ops. enableMethod is what the firmware description gives
    // for the CPU (None when it names no method). Only cpu_ops[cpu] is
    // written, and it is written even when the lookup fails.
    method ReadOps(cpu: nat, enableMethod: Option<string>) returns (ret: int)
      requires cpu < cpuOps.Length
      modifies cpuOps
      ensures enableMethod.None? ==> ret == -ENODEV && cpuOps[..] == old(cpuOps[..])
      ensures enableMethod.Some? ==>
                var found := Lookup(Supported(), enableMethod.value);
                cpuOps[..] == old(cpuOps[..])[cpu := found] &&
                ret == (if found.None? then -EOPNOTSUPP else 0)
    {
      if enableMethod.None? {
        return -ENODEV;
      }
      var found := GetOps(enableMethod.value);
      cpuOps[cpu] := found;
      if cpuOps[cpu].None? {
        return -EOPNOTSUPP;
      }
      return 0;
    }
  }

  // What cpu_read_ops promises its callers: success exactly when the
  // enable method names a supported protocol, and then that protocol is
  // recorded for the CPU.
  lemma ReadOpsMeaning(table: seq<Operations>, name: string)
    ensures Lookup(table, name).Some? <==> exists i :: 0 <= i < |table| && table[i].name == name
    ensures Lookup(table, name).Some? ==> Lookup(table, name).value.name == name
  {
    LookupFound(table, name);
    LookupMissing(table, name);
  }
}
