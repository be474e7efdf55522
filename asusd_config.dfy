/**
 * The `asusd` daemon configuration (asusd/src/config.rs): its fresh defaults, where it lives,
 * and the migrations from the 4.6.2 and 4.7.2 file formats.
 */
module AsusdConfig {
  import opened Basics

  /** asusd/src/lib.rs: `CONFIG_PATH_BASE`. */
  const CONFIG_PATH_BASE: string := "/etc/asusd/"
  const CONFIG_FILE: string := "asusd.ron"

  datatype Config = Config(
    batChargeLimit: u8,
    panelOd: bool,
    miniLedMode: bool,
    disableNvidiaPowerdOnBattery: bool,
    acCommand: string,
    batCommand: string,
    postAnimationSound: bool,
    pptPl1Spl: Option<u8>,
    pptPl2Sppt: Option<u8>,
    pptFppt: Option<u8>,
    pptApuSppt: Option<u8>,
    pptPlatformSppt: Option<u8>,
    nvDynamicBoost: Option<u8>,
    nvTempTarget: Option<u8>)

  /** The 4.7.2 file format. */
  datatype Config472 = Config472(
    batChargeLimit: u8,
    panelOd: bool,
    miniLedMode: bool,
    disableNvidiaPowerdOnBattery: bool,
    acCommand: string,
    batCommand: string,
    postAnimationSound: bool)

  /** The 4.6.2 file format. */
  datatype Config462 = Config462(
    batChargeLimit: u8,
    panelOd: bool,
    disableNvidiaPowerdOnBattery: bool,
    acCommand: string,
    batCommand: string)

  /** No power-limit or nvidia override is set. */
  predicate NoOverrides(c: Config) {
    && c.pptPl1Spl.None? && c.pptPl2Sppt.None? && c.pptFppt.None? && c.pptApuSppt.None?
    && c.pptPlatformSppt.None? && c.nvDynamicBoost.None? && c.nvTempTarget.None?
  }

  /** `#[derive(Default)]`: zero, false, empty and `None` everywhere. */
  function DefaultConfig(): Config {
    Config(0, false, false, false, "", "", false, None, None, None, None, None, None, None)
  }

  /** `StdConfig::new`: a full charge limit and the nvidia daemon disabled on battery. */
  function New(): (c: Config)
    ensures c.batChargeLimit == 100 && c.disableNvidiaPowerdOnBattery
    ensures c.acCommand == "" && c.batCommand == ""
    ensures !c.panelOd && !c.miniLedMode && !c.postAnimationSound
    ensures NoOverrides(c)
  {
    DefaultConfig().(batChargeLimit := 100, disableNvidiaPowerdOnBattery := true, acCommand := "", batCommand := "")
  }

  /** `StdConfig::config_dir`. */
  function ConfigDir(): (r: string)
    ensures |r| > 0 && r[0] == '/' && r[|r| - 1] == '/'
  {
    CONFIG_PATH_BASE
  }

  /** `StdConfig::file_name`. */
  function FileName(): (r: string)
    ensures |r| > 0 && '/' !in r
  {
    CONFIG_FILE
  }

  /** `From<Config472> for Config`. */
  function FromConfig472(c: Config472): (r: Config)
    ensures r.batChargeLimit == c.batChargeLimit && r.panelOd == c.panelOd
    ensures r.acCommand == c.acCommand && r.batCommand == c.batCommand
    ensures r.disableNvidiaPowerdOnBattery && !r.miniLedMode && !r.postAnimationSound
    ensures NoOverrides(r)
  {
    DefaultConfig().(
      batChargeLimit := c.batChargeLimit,
      panelOd := c.panelOd,
      disableNvidiaPowerdOnBattery := true,
      acCommand := c.acCommand,
      batCommand := c.batCommand)
  }

  /** `From<Config462> for Config`. */
  function FromConfig462(c: Config462): (r: Config)
    ensures r.batChargeLimit == c.batChargeLimit && r.panelOd == c.panelOd
    ensures r.acCommand == "" && r.batCommand == ""
    ensures r.disableNvidiaPowerdOnBattery && !r.miniLedMode && !r.postAnimationSound
    ensures NoOverrides(r)
  {
    DefaultConfig().(
      batChargeLimit := c.batChargeLimit,
      panelOd := c.panelOd,
      disableNvidiaPowerdOnBattery := true,
      acCommand := "",
      batCommand := "")
  }

  /**
   * A 4.7.2 file migrates to a fresh config carrying over exactly the charge limit, the panel
   * overdrive and the two commands: the nvidia flag is forced on, mini-LED and the post-animation
   * sound are reset, and no override is set.
   */
  lemma Migrate472IsNewWithUserFields(c: Config472)
    ensures FromConfig472(c) ==
      New().(batChargeLimit := c.batChargeLimit, panelOd := c.panelOd,
             acCommand := c.acCommand, batCommand := c.batCommand)
    ensures FromConfig472(c).disableNvidiaPowerdOnBattery && NoOverrides(FromConfig472(c))
    ensures !FromConfig472(c).miniLedMode && !FromConfig472(c).postAnimationSound
  {
  }

  /** A 4.6.2 file keeps only the charge limit and panel overdrive; its commands are dropped. */
  lemma Migrate462IsNewWithUserFields(c: Config462)
    ensures FromConfig462(c) == New().(batChargeLimit := c.batChargeLimit, panelOd := c.panelOd)
    ensures FromConfig462(c).acCommand == "" && FromConfig462(c).batCommand == ""
    ensures FromConfig462(c).disableNvidiaPowerdOnBattery && NoOverrides(FromConfig462(c))
  {
  }

  /** The 4.7.2 migration reads nothing but the four carried fields. */
  lemma Migrate472Forgets(c: Config472, d: Config472)
    requires c.batChargeLimit == d.batChargeLimit && c.panelOd == d.panelOd
    requires c.acCommand == d.acCommand && c.batCommand == d.batCommand
    ensures FromConfig472(c) == FromConfig472(d)
  {
  }

  /** The 4.6.2 migration reads nothing but the charge limit and panel overdrive. */
  lemma Migrate462Forgets(c: Config462, d: Config462)
    requires c.batChargeLimit == d.batChargeLimit && c.panelOd == d.panelOd
    ensures FromConfig462(c) == FromConfig462(d)
  {
  }

  /** The configuration lives at /etc/asusd/asusd.ron. */
  lemma ConfigLocation()
    ensures ConfigDir() + FileName() == "/etc/asusd/asusd.ron"
  {
  }
}
